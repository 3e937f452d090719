/**
 * The service's own paging of the filtered list: the page the client asked
 * for (`Array.prototype.slice` with the client's offset and limit) and the
 * number of pages of that limit the filtered list fills.
 */
module Pagination {

  import opened Wrappers

  /** `ToIntegerOrInfinity` on a finite number: the integer part, rounded toward zero. */
  function Truncate(x: real): (t: int)
    ensures x >= 0.0 ==> 0 <= t && (t as real) <= x < (t as real) + 1.0
    ensures x < 0.0 ==> t <= 0 && (t as real) - 1.0 < x <= (t as real)
  {
    if x >= 0.0 then x.Floor else -((-x).Floor)
  }

  /** How `slice` turns an index into a position: negative counts from the end, clamped to the list. */
  function RelativeIndex(relative: int, length: nat): (k: nat)
    ensures k <= length
    ensures 0 <= relative ==> k == if relative < length then relative else length
    ensures relative < 0 ==> k == if length + relative < 0 then 0 else length + relative
  {
    if relative < 0 then (if length + relative < 0 then 0 else length + relative)
    else if relative < length then relative
    else length
  }

  /** `s.slice(start, end)` for finite `start` and `end`. */
  function Slice<T>(s: seq<T>, start: real, end: real): (r: seq<T>)
    ensures |r| <= |s|
  {
    var from := RelativeIndex(Truncate(start), |s|);
    var to := RelativeIndex(Truncate(end), |s|);
    if from < to then s[from..to] else []
  }

  function Abs(x: real): real
  {
    if x < 0.0 then -x else x
  }

  /**
   * JavaScript's `n % d`: the remainder of the division truncated toward
   * zero, which takes the sign of `n` and is smaller than `d` in size.
   */
  function Remainder(n: real, d: real): (r: real)
    requires d != 0.0
    ensures n >= 0.0 ==> 0.0 <= r < Abs(d)
    ensures n <= 0.0 ==> -Abs(d) < r <= 0.0
  {
    var t := Truncate(n / d);
    RemainderBounds(n, d, t, n - d * (t as real));
    n - d * (t as real)
  }

  /** `n` less `d` times the truncated quotient lies on the side of `n`, closer to 0 than `d`. */
  lemma RemainderBounds(n: real, d: real, t: int, r: real)
    requires d != 0.0 && t == Truncate(n / d) && r == n - d * (t as real)
    ensures n >= 0.0 ==> 0.0 <= r < Abs(d)
    ensures n <= 0.0 ==> -Abs(d) < r <= 0.0
  {
    if n == 0.0 {
      assert t == 0;
    } else {
      var q, u := n / d, t as real;
      var m := d * u;
      assert d * q == n;
      if d > 0.0 && q >= 0.0 {
        ScaleBetween(d, q, u, m, n);
      } else if d > 0.0 {
        ScaleBetween(d, -q, -u, -m, -n);
      } else if q >= 0.0 {
        ScaleBetween(-d, q, u, -m, -n);
      } else {
        ScaleBetween(-d, -q, -u, m, n);
      }
    }
  }

  /**
   * For `d > 0`, `u <= q < u + 1` scales to `m <= p < m + d`, where `m` is
   * `d * u` and `p` is `d * q`. The products are passed in by name, which
   * keeps the solver's arithmetic linear.
   */
  lemma ScaleBetween(d: real, q: real, u: real, m: real, p: real)
    requires d > 0.0 && u <= q < u + 1.0 && m == d * u && p == d * q
    ensures m <= p < m + d
  {
    var f := q - u;
    var k, j := d * f, d * (1.0 - f);
    assert p - m == k;
    assert j == d - k;
    PositiveProduct(d, f);
    PositiveProduct(d, 1.0 - f);
  }

  lemma PositiveProduct(x: real, y: real)
    requires x > 0.0 && y >= 0.0
    ensures x * y >= 0.0 && (y > 0.0 ==> x * y > 0.0)
  {
  }

  /**
   * `Math.floor(length / limit) + (length % limit > 0 ? 1 : 0)`. With a zero
   * limit the JavaScript value is NaN or Infinity, which JSON writes as
   * `null`: that is `None` here.
   */
  function PageCount(length: nat, limit: real): (c: Option<int>)
    ensures c.None? <==> limit == 0.0
  {
    if limit == 0.0 then None
    else Some((length as real / limit).Floor + (if Remainder(length as real, limit) > 0.0 then 1 else 0))
  }

  // ---------------------------------------------------------------------
  // Properties

  /** For whole-number bounds the slice is the stretch between them, clipped to the list. */
  lemma SliceOfWholeNumbers<T>(s: seq<T>, offset: nat, limit: nat)
    ensures var from := if offset < |s| then offset else |s|;
            var to := if offset + limit < |s| then offset + limit else |s|;
            Slice(s, offset as real, (offset + limit) as real) == s[from..to]
    ensures |Slice(s, offset as real, (offset + limit) as real)| <= limit
  {
    assert Truncate(offset as real) == offset;
    assert Truncate((offset + limit) as real) == offset + limit;
  }

  /** The remainder of whole numbers is the usual one. */
  lemma RemainderOfWholeNumbers(n: nat, d: nat)
    requires d > 0
    ensures Remainder(n as real, d as real) == (n % d) as real
  {
    var q, r := n / d, n % d;
    assert n == q * d + r;
    assert (n as real) == (q as real) * (d as real) + (r as real);
    assert (n as real) / (d as real) == (q as real) + (r as real) / (d as real);
    assert 0.0 <= (r as real) / (d as real) < 1.0;
    assert Truncate((n as real) / (d as real)) == q;
  }

  /** The floor of a quotient of whole numbers is their integer quotient. */
  lemma FloorOfWholeQuotient(n: nat, d: nat)
    requires d > 0
    ensures ((n as real) / (d as real)).Floor == n / d
  {
    var q := n / d;
    assert n == q * d + n % d;
    assert (n as real) / (d as real) == (q as real) + ((n % d) as real) / (d as real);
    assert 0.0 <= ((n % d) as real) / (d as real) < 1.0;
  }

  /**
   * With a positive whole-number limit the page count is the least number of
   * pages of that size that hold the whole list.
   */
  lemma PageCountIsCeiling(length: nat, limit: nat)
    requires limit > 0
    ensures PageCount(length, limit as real).Some?
    ensures var c := PageCount(length, limit as real).value;
            0 <= c && length <= c * limit && (c == 0 || (c - 1) * limit < length)
  {
    RemainderOfWholeNumbers(length, limit);
    FloorOfWholeQuotient(length, limit);
    var q := length / limit;
    assert length == q * limit + length % limit;
    var c := PageCount(length, limit as real).value;
    assert c == q + if length % limit > 0 then 1 else 0;
  }

  /**
   * With a positive whole-number limit every item of the list appears on
   * exactly one page: item j is at position j % limit of page j / limit,
   * and that page is one of the pages counted.
   */
  lemma EveryItemIsOnItsPage<T>(s: seq<T>, limit: nat, j: nat)
    requires limit > 0 && j < |s|
    ensures j / limit < PageCount(|s|, limit as real).value
    ensures var page := j / limit;
            var onPage := Slice(s, (page * limit) as real, (page * limit + limit) as real);
            j % limit < |onPage| && onPage[j % limit] == s[j]
  {
    PageCountIsCeiling(|s|, limit);
    QuotientBelow(j, PageCount(|s|, limit as real).value, limit);
    ItemOnItsPage(s, limit, j);
  }

  /** Item j sits at position j % limit of the page starting at (j / limit) * limit. */
  lemma ItemOnItsPage<T>(s: seq<T>, limit: nat, j: nat)
    requires limit > 0 && j < |s|
    ensures var start := (j / limit) * limit;
            var onPage := Slice(s, start as real, (start + limit) as real);
            j % limit < |onPage| && onPage[j % limit] == s[j]
  {
    var start := (j / limit) * limit;
    assert j == start + j % limit;
    SliceOfWholeNumbers(s, start, limit);
  }

  lemma QuotientBelow(j: nat, c: int, limit: nat)
    requires limit > 0 && j < c * limit
    ensures j / limit < c
  {
    var q := j / limit;
    assert q * limit <= j;
  }

  /** A zero limit gives an empty page and no finite page count. */
  lemma ZeroLimit<T>(s: seq<T>, offset: real)
    ensures Slice(s, offset, offset + 0.0) == []
    ensures PageCount(|s|, 0.0).None?
  {
  }

  /**
   * Ten items in pages of three make four pages: the first page holds the
   * first three items and the last holds one.
   */
  lemma TenItemsInPagesOfThree<T>(s: seq<T>)
    requires |s| == 10
    ensures PageCount(10, 3.0) == Some(4)
    ensures Slice(s, 0.0, 3.0) == s[..3]
    ensures Slice(s, 9.0, 12.0) == [s[9]]
  {
    RemainderOfWholeNumbers(10, 3);
    FloorOfWholeQuotient(10, 3);
    SliceOfWholeNumbers(s, 0, 3);
    SliceOfWholeNumbers(s, 9, 3);
  }

  /** No items make no pages. */
  lemma NoItemsNoPages()
    ensures PageCount(0, 150.0) == Some(0)
  {
    RemainderOfWholeNumbers(0, 150);
    FloorOfWholeQuotient(0, 150);
  }

  /** A negative offset -k counts from the end: slicing from it to the end gives the last k items. */
  lemma NegativeOffsetCountsFromTheEnd<T>(s: seq<T>, k: nat)
    requires 0 < k <= |s|
    ensures Slice(s, -(k as real), |s| as real) == s[|s| - k..]
  {
    assert Truncate(-(k as real)) == -(k as int);
    assert Truncate(|s| as real) == |s|;
  }

  /** Both bounds may count from the end: in ten items, -3 to -1 is items 7 and 8. */
  lemma NegativeBoundsExample<T>(s: seq<T>)
    requires |s| == 10
    ensures Slice(s, -3.0, 7.0) == []
    ensures Slice(s, -3.0, -1.0) == s[7..9]
  {
    assert Truncate(-3.0) == -3;
    assert Truncate(-1.0) == -1;
  }
}
