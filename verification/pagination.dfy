/** The stateless pagination bar under the library's plain tables: it
    derives the page count and the enable flags from its props and hands
    the page each button stands for to `onPageChange`. */
module Pagination {
  import opened Wrappers
  import Numbers

  /** `pageSizeOptions` when the caller gives none. */
  const DefaultPageSizeOptions: seq<nat> := [10, 20, 30, 40, 50]

  /** `Math.ceil(total / pageSize)`: the fewest pages of `pageSize` rows that
      hold `total` rows. */
  function TotalPages(total: nat, pageSize: nat): (pages: nat)
    requires pageSize >= 1
    ensures pages * pageSize >= total
    ensures pages == 0 || (pages - 1) * pageSize < total
  {
    (total + pageSize - 1) / pageSize
  }

  /** No rows, no pages; any row at all, at least one page. */
  lemma TotalPagesZero(total: nat, pageSize: nat)
    requires pageSize >= 1
    ensures TotalPages(total, pageSize) == 0 <==> total == 0
  {
  }

  /** The four navigation buttons. */
  datatype Button = First | Previous | Next | Last

  /** `canPrevious` and `canNext`. */
  predicate CanPrevious(page: int) {
    page > 1
  }

  predicate CanNext(page: int, totalPages: int) {
    page < totalPages
  }

  /** A button is enabled unless the flag it depends on is false. */
  predicate Enabled(b: Button, page: int, totalPages: int)
    ensures Enabled(b, page, totalPages) && 1 <= page <= totalPages ==> totalPages >= 2
  {
    match b
    case First | Previous => CanPrevious(page)
    case Next | Last => CanNext(page, totalPages)
  }

  /** The page a button hands to `onPageChange`: 1, `page - 1`, `page + 1`
      or `totalPages`. */
  function Target(b: Button, page: int, totalPages: int): (target: int)
    ensures Enabled(b, page, totalPages) && 1 <= page <= totalPages ==>
              1 <= target <= totalPages && target != page
  {
    match b
    case First => 1
    case Previous => page - 1
    case Next => page + 1
    case Last => totalPages
  }

  /** What clicking a button does: nothing when it is disabled, otherwise
      the page it emits. */
  function Click(b: Button, page: int, total: nat, pageSize: nat): (r: Option<int>)
    requires pageSize >= 1
    ensures r.None? <==> !Enabled(b, page, TotalPages(total, pageSize))
    ensures r.Some? ==> r.value == Target(b, page, TotalPages(total, pageSize))
    ensures r.Some? && (b == First || b == Previous) ==> 1 <= r.value < page
    ensures r.Some? && (b == Next || b == Last) ==> page < r.value <= TotalPages(total, pageSize)
  {
    var pages := TotalPages(total, pageSize);
    if Enabled(b, page, pages) then Some(Target(b, page, pages)) else None
  }

  /** From any page in `1..totalPages`, every enabled button emits a page in
      `1..totalPages`, and a different one. */
  lemma ClickStaysInRange(b: Button, page: int, total: nat, pageSize: nat)
    requires pageSize >= 1
    requires 1 <= page <= TotalPages(total, pageSize)
    ensures Click(b, page, total, pageSize).Some? ==>
              1 <= Click(b, page, total, pageSize).value <= TotalPages(total, pageSize)
    ensures Click(b, page, total, pageSize).Some? ==> Click(b, page, total, pageSize).value != page
  {
  }

  /** With no rows, on page 1, every button is disabled. */
  lemma EmptyTableDisablesAll(b: Button, pageSize: nat)
    requires pageSize >= 1
    ensures Click(b, 1, 0, pageSize).None?
  {
  }

  /** On a single page of rows every button is disabled as well. */
  lemma SinglePageDisablesAll(b: Button, total: nat, pageSize: nat)
    requires 1 <= pageSize && 1 <= total <= pageSize
    ensures Click(b, 1, total, pageSize).None?
  {
    var t := TotalPages(total, pageSize);
    assert t != 0;
    if t >= 2 {
      AtLeastOnce(t - 1, pageSize);
    }
    assert t == 1;
  }

  lemma AtLeastOnce(a: nat, c: nat)
    requires a >= 1
    ensures a * c >= c
  {
  }

  /** The page-size select renders each option as `${size}` and hands
      `Number(value)` to `onPageSizeChange`, so the size chosen is the size
      emitted. */
  function ChosenPageSize(size: nat): (emitted: nat)
    ensures emitted == size
  {
    Numbers.RunValueOfDecimal(size);
    Numbers.RunValue(Numbers.DecimalString(size), 10)
  }

  /** Every default option reads back as itself and is a usable page size,
      so choosing one gives `TotalPages` a valid divisor. */
  lemma DefaultOptionsReadBack(k: nat)
    requires k < |DefaultPageSizeOptions|
    ensures ChosenPageSize(DefaultPageSizeOptions[k]) == DefaultPageSizeOptions[k]
    ensures ChosenPageSize(DefaultPageSizeOptions[k]) >= 1
  {
  }
}
