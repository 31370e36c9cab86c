/**
 * Pagination as `render` and the prev/next handlers do it: the page count,
 * the clamp of `currentPage`, the window sliced out of the filtered list and
 * the pager controls (`page-info` text, prev/next `disabled`).
 */
module Paging {
  import opened Wrappers
  import opened Text

  /** `Math.ceil(n / itemsPerPage)` */
  function TotalPages(n: nat, size: nat): nat
    requires size > 0
  {
    (n + size - 1) / size
  }

  /** The page count is the fewest pages of `size` rows that hold `n` rows. */
  lemma TotalPagesIsCeiling(n: nat, size: nat)
    requires size > 0
    ensures var t := TotalPages(n, size);
      && n <= t * size
      && (t == 0 || (t - 1) * size < n)
      && (t == 0 <==> n == 0)
  {
    var q := (n + size - 1) / size;
    var r := (n + size - 1) % size;
    assert q * size + r == n + size - 1 && 0 <= r < size;
    assert (q - 1) * size == q * size - size;
  }

  /** `Math.max(1, Math.min(currentPage, totalPages))` */
  function ClampPage(page: int, total: nat): (p: int)
    ensures 1 <= p && (p <= total || p == 1)
    ensures 1 <= page <= total ==> p == page
    ensures total == 0 || page < 1 ==> p == 1
    ensures page > total >= 1 ==> p == total
  {
    var lower := if page < total then page else total;
    if lower < 1 then 1 else lower
  }

  /** `s.slice(start, end)` for non-negative bounds: both are cut back to the length. */
  function Slice<T>(s: seq<T>, start: nat, end: nat): (r: seq<T>)
  {
    var a := if start < |s| then start else |s|;
    var b := if end < |s| then end else |s|;
    if a <= b then s[a..b] else []
  }

  /** The rows `render` lists on page `page`. */
  function PageWindow<T>(filtered: seq<T>, page: int, size: nat): seq<T>
    requires page >= 1 && size > 0
  {
    var start := (page - 1) * size;
    Slice(filtered, start, start + size)
  }

  /**
   * After the clamp, the window is `filtered[(p-1)*size .. min(p*size, n))`:
   * never longer than a page, and never empty while something passes the
   * filters.
   */
  lemma WindowSpec<T>(filtered: seq<T>, page: int, size: nat)
    requires size > 0
    ensures var p := ClampPage(page, TotalPages(|filtered|, size));
      && (p - 1) * size <= |filtered|
      && PageWindow(filtered, p, size)
         == filtered[(p - 1) * size .. if p * size < |filtered| then p * size else |filtered|]
      && |PageWindow(filtered, p, size)| <= size
      && (|filtered| > 0 ==> |PageWindow(filtered, p, size)| > 0)
  {
    var n := |filtered|;
    var t := TotalPages(n, size);
    TotalPagesIsCeiling(n, size);
    var p := ClampPage(page, t);
    var start := (p - 1) * size;
    assert p * size == start + size;
    if n == 0 {
      assert p == 1 && start == 0;
    } else {
      MultiplyMonotone(p - 1, t - 1, size);
      assert start < n;
    }
    var end := if start + size < n then start + size else n;
    assert PageWindow(filtered, p, size) == filtered[start..end];
  }

  lemma MultiplyMonotone(a: nat, b: nat, size: nat)
    requires a <= b
    ensures a * size <= b * size
  {
  }

  /**
   * Every row of the filtered list is shown on exactly one page, page
   * `i / size + 1`, which the clamp leaves alone, at offset `i % size`.
   */
  lemma {:induction false} EveryRowOnOnePage<T>(filtered: seq<T>, size: nat, i: nat)
    requires size > 0 && i < |filtered|
    ensures var p := i / size + 1;
      && 1 <= p <= TotalPages(|filtered|, size)
      && ClampPage(p, TotalPages(|filtered|, size)) == p
      && i % size < |PageWindow(filtered, p, size)|
      && PageWindow(filtered, p, size)[i % size] == filtered[i]
    ensures forall q :: 1 <= q && (q - 1) * size <= i < q * size ==> q == i / size + 1
  {
    var n := |filtered|;
    var t := TotalPages(n, size);
    TotalPagesIsCeiling(n, size);
    var p := i / size + 1;
    assert i == (i / size) * size + i % size;
    assert (p - 1) * size == (i / size) * size;
    assert p * size == (i / size) * size + size;
    if p > t {
      MultiplyMonotone(t, p - 1, size);
    }
    forall q | 1 <= q && (q - 1) * size <= i < q * size ensures q == p {
      if q < p {
        MultiplyMonotone(q, p - 1, size);
      } else if q > p {
        MultiplyMonotone(p, q - 1, size);
      }
    }
  }

  // ---------------------------------------------------------------------
  // Pager controls and the handlers they guard
  // ---------------------------------------------------------------------

  /** The `page-info` text and the `disabled` flags of the two buttons. */
  datatype Pager = Pager(pageInfo: string, prevDisabled: bool, nextDisabled: bool)

  function PagerOf(page: nat, total: nat): Pager
  {
    Pager(Decimal(page) + "/" + Decimal(if total == 0 then 1 else total),
          page == 1,
          page == total || total == 0)
  }

  /** The guard of the prev-page handler. */
  predicate CanGoPrev(page: int)
  {
    page > 1
  }

  /** The guard of the next-page handler. */
  predicate CanGoNext(page: int, total: nat)
  {
    page < total
  }

  /**
   * Once the page is clamped, a button is disabled exactly when its handler
   * would do nothing.
   */
  lemma PagerMatchesHandlers(page: int, total: nat)
    ensures var p := ClampPage(page, total);
      && (PagerOf(p, total).prevDisabled <==> !CanGoPrev(p))
      && (PagerOf(p, total).nextDisabled <==> !CanGoNext(p, total))
  {
  }

  /** Position of the first `/` in `s`, if any. */
  function SlashIndex(s: string): (r: Option<nat>)
    ensures r.Some? ==> r.value < |s| && s[r.value] == '/'
  {
    if s == [] then None
    else if s[0] == '/' then Some(0)
    else match SlashIndex(s[1..])
      case None => None
      case Some(k) => Some(k + 1)
  }

  /** Reads a `page/total` label back into its two numbers. */
  function ParseLabel(s: string): Option<(nat, nat)>
  {
    match SlashIndex(s)
    case None => None
    case Some(k) =>
      var left, right := s[..k], s[k + 1..];
      if left != [] && right != []
         && (forall i :: 0 <= i < |left| ==> IsDigit(left[i]))
         && (forall i :: 0 <= i < |right| ==> IsDigit(right[i]))
      then Some((DigitsValue(left), DigitsValue(right)))
      else None
  }

  lemma {:induction false} SlashAfterDigits(digits: string, rest: string)
    requires forall i :: 0 <= i < |digits| ==> IsDigit(digits[i])
    ensures SlashIndex(digits + "/" + rest) == Some(|digits|)
  {
    if digits != [] {
      assert (digits + "/" + rest)[1..] == digits[1..] + "/" + rest;
      SlashAfterDigits(digits[1..], rest);
    }
  }

  /** Two digit strings joined by `/` read back as their two values. */
  lemma ParseJoined(left: string, right: string)
    requires left != [] && right != []
    requires forall i :: 0 <= i < |left| ==> IsDigit(left[i])
    requires forall i :: 0 <= i < |right| ==> IsDigit(right[i])
    ensures ParseLabel(left + "/" + right) == Some((DigitsValue(left), DigitsValue(right)))
  {
    var s := left + "/" + right;
    SlashAfterDigits(left, right);
    assert s[..|left|] == left;
    assert s[|left| + 1..] == right;
  }

  /** The label shows the current page and the page count, which is 1 for an empty list. */
  lemma LabelRoundTrip(page: nat, total: nat)
    ensures ParseLabel(PagerOf(page, total).pageInfo) == Some((page, if total == 0 then 1 else total))
  {
    var shown := if total == 0 then 1 else total;
    ParseJoined(Decimal(page), Decimal(shown));
    DecimalRoundTrip(page);
    DecimalRoundTrip(shown);
  }

  /**
   * 25 rows, 10 per page: page 1 lists rows 0..9 under "1/3" with prev
   * disabled and next enabled; on page 3 next is disabled and a further
   * step is clamped back to 3.
   */
  lemma TwentyFiveRowsScenario<T>(rows: seq<T>)
    requires |rows| == 25
    ensures TotalPages(25, 10) == 3
    ensures PageWindow(rows, ClampPage(1, 3), 10) == rows[..10]
    ensures PagerOf(1, 3) == Pager("1/3", true, false)
    ensures PageWindow(rows, 3, 10) == rows[20..]
    ensures PagerOf(3, 3).nextDisabled && !CanGoNext(3, 3) && ClampPage(4, 3) == 3
  {
  }
}
