/** The generic data table: rows are filtered by a search text and by
    per-column equality filters, split into pages, and shown with a
    selection of row ids and a set of visible columns. The pure pipeline
    comes first; `Table` holds the component's state and its handlers. */
module DataTable {
  import opened Wrappers
  import opened Text
  import opened Choices
  import Numbers
  import Pagination

  /** A row as the table sees it: each field already turned into its string
      (`String(value)`). Every row has an `id`. */
  type Row = fields: map<string, string> | "id" in fields witness map["id" := ""]

  datatype Column = Column(key: string, caption: string)

  /** A filter the table offers: the column it tests, its title, and the
      values to choose from (besides "all"). */
  datatype FilterDef = FilterDef(key: string, caption: string, options: seq<Choice>)

  // ---------------------------------------------------------------------
  // Filtering
  // ---------------------------------------------------------------------

  /** `String(row[key])`: the field's text, or "undefined" for a key the
      row does not have. */
  function FieldText(row: map<string, string>, key: string): (t: string)
    ensures key in row ==> t == row[key]
    ensures key !in row ==> t == "undefined"
  {
    if key in row then row[key] else "undefined"
  }

  /** Some field of the row contains the search text, both lower-cased;
      so the row has a field at least as long as the search. */
  predicate MatchesSearch(row: map<string, string>, search: string)
    ensures MatchesSearch(row, search) ==> exists key :: key in row && |search| <= |row[key]|
  {
    exists key :: key in row && Contains(Lower(row[key]), Lower(search))
  }

  /** A filter value that imposes nothing: empty, or the "all" entry. */
  predicate IsInert(v: string) {
    v == "" || v == "all"
  }

  /** Every active filter that is not inert equals the row's field text;
      filters that are all inert keep every row. */
  predicate MatchesFilters(row: map<string, string>, filters: map<string, string>)
    ensures (forall key :: key in filters ==> IsInert(filters[key])) ==> MatchesFilters(row, filters)
  {
    forall key :: key in filters && !IsInert(filters[key]) ==> FieldText(row, key) == filters[key]
  }

  predicate Keeps(row: Row, search: string, filters: map<string, string>) {
    MatchesSearch(row, search) && MatchesFilters(row, filters)
  }

  /** `data.filter(...)`: the rows that match both the search and the
      filters. */
  function FilterRows(rows: seq<Row>, search: string, filters: map<string, string>): (r: seq<Row>)
    ensures |r| <= |rows|
    ensures forall k :: 0 <= k < |r| ==> r[k] in rows && Keeps(r[k], search, filters)
    ensures forall k :: 0 <= k < |rows| && Keeps(rows[k], search, filters) ==> rows[k] in r
  {
    if rows == [] then []
    else
      var rest := FilterRows(rows[1..], search, filters);
      assert forall k :: 0 < k < |rows| ==> rows[k] == rows[1..][k - 1];
      if Keeps(rows[0], search, filters) then [rows[0]] + rest else rest
  }

  /** Filtering goes row by row, so the rows kept stay in their order. */
  lemma {:induction false} FilterRowsAppend(a: seq<Row>, b: seq<Row>, search: string, filters: map<string, string>)
    ensures FilterRows(a + b, search, filters) == FilterRows(a, search, filters) + FilterRows(b, search, filters)
  {
    if a == [] {
      assert a + b == b;
    } else {
      assert (a + b)[0] == a[0];
      assert (a + b)[1..] == a[1..] + b;
      FilterRowsAppend(a[1..], b, search, filters);
    }
  }

  /** Filtering the kept rows again keeps them all. */
  lemma {:induction false} FilterRowsIdempotent(rows: seq<Row>, search: string, filters: map<string, string>)
    ensures FilterRows(FilterRows(rows, search, filters), search, filters) == FilterRows(rows, search, filters)
  {
    if rows != [] {
      FilterRowsIdempotent(rows[1..], search, filters);
      var rest := FilterRows(rows[1..], search, filters);
      if Keeps(rows[0], search, filters) {
        assert ([rows[0]] + rest)[1..] == rest;
      }
    }
  }

  /** The empty search matches exactly the rows with at least one field. */
  lemma EmptySearchMatches(row: map<string, string>)
    ensures MatchesSearch(row, "") <==> |row| > 0
  {
    if |row| > 0 {
      var key :| key in row;
      ContainsEmpty(Lower(row[key]));
    }
  }

  /** A filter entry set to "" or "all" is the same as no entry for that key. */
  lemma InertFilterIsNoFilter(row: map<string, string>, filters: map<string, string>, key: string, v: string)
    requires IsInert(v)
    ensures MatchesFilters(row, filters[key := v]) <==> MatchesFilters(row, filters - {key})
  {
    assert forall k :: k in filters[key := v] && !IsInert(filters[key := v][k]) ==>
      k in filters - {key} && (filters - {key})[k] == filters[key := v][k];
  }

  /** With no search and no filters every row is shown, in order: what
      `clearFilters` brings back. */
  lemma {:induction false} ClearedKeepsAll(rows: seq<Row>)
    ensures FilterRows(rows, "", map[]) == rows
  {
    if rows != [] {
      EmptySearchMatches(rows[0]);
      ClearedKeepsAll(rows[1..]);
    }
  }

  /** A filter on "undefined" keeps the rows that lack its key. */
  lemma UndefinedMatchesMissingKey(row: map<string, string>, key: string)
    requires key !in row
    ensures MatchesFilters(row, map[key := "undefined"])
  {
  }

  // ---------------------------------------------------------------------
  // Pages
  // ---------------------------------------------------------------------

  /** `(currentPage - 1) * rowsPerPage`. */
  function StartIndex(page: int, rowsPerPage: nat): (start: int)
    ensures page >= 1 ==> start >= 0
  {
    MulMonotone(0, if page >= 1 then page - 1 else 0, rowsPerPage);
    (page - 1) * rowsPerPage
  }

  /** `rows.slice(start, start + rowsPerPage)` for a page from 1 on: the
      slice is cut short by the end of the rows, and empty past it. */
  function PageRows(rows: seq<Row>, page: int, rowsPerPage: nat): (r: seq<Row>)
    requires page >= 1
    ensures |r| <= rowsPerPage
    ensures StartIndex(page, rowsPerPage) >= |rows| ==> r == []
    ensures StartIndex(page, rowsPerPage) < |rows| ==>
              |r| == if StartIndex(page, rowsPerPage) + rowsPerPage <= |rows| then rowsPerPage
                     else |rows| - StartIndex(page, rowsPerPage)
    ensures forall k :: 0 <= k < |r| ==> r[k] == rows[StartIndex(page, rowsPerPage) + k]
  {
    var start := StartIndex(page, rowsPerPage);
    if start >= |rows| then []
    else if start + rowsPerPage <= |rows| then rows[start..start + rowsPerPage]
    else rows[start..]
  }

  /** Every row sits on page `i / rowsPerPage + 1`, which is one of the
      pages `1..totalPages`, at position `i % rowsPerPage`. */
  lemma RowOnItsPage(rows: seq<Row>, rowsPerPage: nat, i: nat)
    requires rowsPerPage >= 1 && i < |rows|
    ensures 1 <= i / rowsPerPage + 1 <= Pagination.TotalPages(|rows|, rowsPerPage)
    ensures i % rowsPerPage < |PageRows(rows, i / rowsPerPage + 1, rowsPerPage)|
    ensures PageRows(rows, i / rowsPerPage + 1, rowsPerPage)[i % rowsPerPage] == rows[i]
  {
    var p := i / rowsPerPage;
    assert i == p * rowsPerPage + i % rowsPerPage;
    assert StartIndex(p + 1, rowsPerPage) == p * rowsPerPage;
    var t := Pagination.TotalPages(|rows|, rowsPerPage);
    assert p * rowsPerPage < t * rowsPerPage;
    MulCancel(p, t, rowsPerPage);
  }

  lemma MulMonotone(a: nat, b: nat, c: nat)
    requires a <= b
    ensures a * c <= b * c
  {
  }

  lemma MulCancel(a: nat, b: nat, c: nat)
    requires a * c < b * c
    ensures a < b
  {
    if a >= b {
      MulMonotone(b, a, c);
    }
  }

  /** A page past `totalPages` shows no rows, and every page up to it
      shows some. */
  lemma PagesBeyondLastAreEmpty(rows: seq<Row>, page: int, rowsPerPage: nat)
    requires page >= 1 && rowsPerPage >= 1
    ensures PageRows(rows, page, rowsPerPage) == [] <==>
              page > Pagination.TotalPages(|rows|, rowsPerPage)
  {
    var t := Pagination.TotalPages(|rows|, rowsPerPage);
    if page > t {
      MulMonotone(t, page - 1, rowsPerPage);
    } else {
      MulMonotone(page - 1, t - 1, rowsPerPage);
    }
  }

  /** "Showing lo - hi of n": `startIndex + 1` and
      `Math.min(startIndex + rowsPerPage, n)`. */
  function ShownRange(page: int, rowsPerPage: nat, n: nat): (range: (int, int))
    ensures page >= 1 ==> range.0 >= 1
    ensures range.1 <= n
  {
    (StartIndex(page, rowsPerPage) + 1, Min(StartIndex(page, rowsPerPage) + rowsPerPage, n))
  }

  function Min(a: int, b: int): int {
    if a <= b then a else b
  }

  /** On a page in `1..totalPages` the shown range counts exactly the rows
      on the page. */
  lemma ShownRangeCountsPage(rows: seq<Row>, page: int, rowsPerPage: nat)
    requires rowsPerPage >= 1 && 1 <= page <= Pagination.TotalPages(|rows|, rowsPerPage)
    ensures ShownRange(page, rowsPerPage, |rows|).1 - ShownRange(page, rowsPerPage, |rows|).0 + 1
              == |PageRows(rows, page, rowsPerPage)|
  {
    PagesBeyondLastAreEmpty(rows, page, rowsPerPage);
  }

  // ---------------------------------------------------------------------
  // Selection and columns
  // ---------------------------------------------------------------------

  /** The ids of the given rows. */
  function Ids(rows: seq<Row>): (ids: set<string>)
    ensures forall k :: 0 <= k < |rows| ==> rows[k]["id"] in ids
    ensures forall id :: id in ids ==> exists k :: 0 <= k < |rows| && rows[k]["id"] == id
  {
    set k | 0 <= k < |rows| :: rows[k]["id"]
  }

  /** No two of the rows share an id. */
  predicate DistinctIds(rows: seq<Row>) {
    forall i, j :: 0 <= i < j < |rows| ==> rows[i]["id"] != rows[j]["id"]
  }

  lemma {:induction false} IdsCount(rows: seq<Row>)
    requires DistinctIds(rows)
    ensures |Ids(rows)| == |rows|
  {
    if rows != [] {
      var last := rows[|rows| - 1];
      var init := rows[..|rows| - 1];
      IdsCount(init);
      assert Ids(rows) == Ids(init) + {last["id"]};
      assert last["id"] !in Ids(init);
    }
  }

  /** `toggleSelect(id)`: the id flips membership and no other id changes. */
  function Flip(selected: set<string>, id: string): (r: set<string>)
    ensures id in r <==> id !in selected
    ensures forall x :: x != id ==> (x in r <==> x in selected)
  {
    if id in selected then selected - {id} else selected + {id}
  }

  lemma FlipTwice(selected: set<string>, id: string)
    ensures Flip(Flip(selected, id), id) == selected
  {
  }

  /** `toggleSelectAll`: a selection as large as the page is emptied, any
      other is replaced by the ids of the page's rows. Only sizes are
      compared. */
  function SelectAll(selected: set<string>, page: seq<Row>): (r: set<string>)
    ensures |selected| == |page| ==> r == {}
    ensures |selected| != |page| ==> r == Ids(page)
  {
    if |selected| == |page| then {} else Ids(page)
  }

  /** The header checkbox: checked when the selection is as large as a
      non-empty page. */
  predicate HeaderChecked(selected: set<string>, page: seq<Row>)
    ensures HeaderChecked(selected, page) ==> selected != {}
  {
    |selected| == |page| && |page| > 0
  }

  /** Selecting all twice does not bring the selection back: it ends with
      the whole page selected if the sizes matched at first, and with
      nothing selected otherwise. */
  lemma SelectAllTwice(selected: set<string>, page: seq<Row>)
    requires DistinctIds(page)
    ensures SelectAll(SelectAll(selected, page), page) ==
              if |selected| == |page| then Ids(page) else {}
  {
    IdsCount(page);
    if |selected| == |page| && |page| == 0 {
      assert Ids(page) == {};
    }
  }

  /** After "select all" on a non-empty page whose size differed from the
      selection, the header box is checked. */
  lemma SelectAllChecksHeader(selected: set<string>, page: seq<Row>)
    requires DistinctIds(page) && |page| > 0 && |selected| != |page|
    ensures HeaderChecked(SelectAll(selected, page), page)
  {
    IdsCount(page);
  }

  /** The header box can be checked while none of the page's rows is
      selected: one selected row elsewhere against a one-row page. */
  lemma HeaderCheckedBySizeAlone()
    ensures var page: seq<Row> := [map["id" := "b"]];
            HeaderChecked({"a"}, page) && "a" !in Ids(page)
  {
    var page: seq<Row> := [map["id" := "b"]];
    assert page[0]["id"] == "b";
  }

  /** The declared columns whose keys are visible, in declaration order. */
  function RenderedColumns(columns: seq<Column>, visible: set<string>): (r: seq<Column>)
    ensures forall k :: 0 <= k < |r| ==> r[k] in columns && r[k].key in visible
    ensures forall k :: 0 <= k < |columns| && columns[k].key in visible ==> columns[k] in r
    ensures |r| <= |columns|
  {
    if columns == [] then []
    else
      var rest := RenderedColumns(columns[1..], visible);
      assert forall k :: 0 < k < |columns| ==> columns[k] == columns[1..][k - 1];
      if columns[0].key in visible then [columns[0]] + rest else rest
  }

  /** Rendering goes column by column, so the rendered columns keep their
      declaration order. */
  lemma {:induction false} RenderedColumnsAppend(a: seq<Column>, b: seq<Column>, visible: set<string>)
    ensures RenderedColumns(a + b, visible) == RenderedColumns(a, visible) + RenderedColumns(b, visible)
  {
    if a == [] {
      assert a + b == b;
    } else {
      assert (a + b)[0] == a[0];
      assert (a + b)[1..] == a[1..] + b;
      RenderedColumnsAppend(a[1..], b, visible);
    }
  }

  function Keys(columns: seq<Column>): (keys: set<string>)
    ensures forall k :: 0 <= k < |columns| ==> columns[k].key in keys
  {
    set k | 0 <= k < |columns| :: columns[k].key
  }

  /** With every key visible, as at the start, all columns render in order. */
  lemma {:induction false} AllVisibleRendersAll(columns: seq<Column>, visible: set<string>)
    requires Keys(columns) <= visible
    ensures RenderedColumns(columns, visible) == columns
  {
    if columns != [] {
      assert Keys(columns[1..]) <= Keys(columns) by {
        forall key | key in Keys(columns[1..]) ensures key in Keys(columns) {
          var k :| 0 <= k < |columns[1..]| && columns[1..][k].key == key;
          assert columns[k + 1].key == key;
        }
      }
      AllVisibleRendersAll(columns[1..], visible);
    }
  }

  /** The column menu's checkbox: add the key when checked, drop it when
      not. */
  function SetVisibility(visible: set<string>, key: string, checked: bool): (r: set<string>)
    ensures key in r <==> checked
    ensures forall x :: x != key ==> (x in r <==> x in visible)
  {
    if checked then visible + {key} else visible - {key}
  }

  // ---------------------------------------------------------------------
  // Filter chips
  // ---------------------------------------------------------------------

  /** The keys that get a chip under the toolbar: active and not inert. */
  function ChipKeys(filters: map<string, string>): (keys: set<string>)
    ensures forall k :: k in keys <==> k in filters && !IsInert(filters[k])
  {
    set k | k in filters && !IsInert(filters[k])
  }

  /** The number on the filter button: every key in `activeFilters`,
      including keys set to "all". */
  function BadgeCount(filters: map<string, string>): (count: nat)
    ensures |ChipKeys(filters)| <= count
  {
    SubsetSize(ChipKeys(filters), filters.Keys);
    |filters.Keys|
  }

  lemma SubsetSize<T>(a: set<T>, b: set<T>)
    requires a <= b
    ensures |a| <= |b|
  {
    assert b == a + (b - a);
  }

  /** Setting a filter back to "all" keeps its key in `activeFilters`: the
      badge count stays the same, but the chip goes and the rows shown are
      those shown without that filter. */
  lemma ResetToAllKeepsBadge(rows: seq<Row>, search: string, filters: map<string, string>, key: string)
    requires key in filters && !IsInert(filters[key])
    ensures BadgeCount(filters[key := "all"]) == BadgeCount(filters)
    ensures ChipKeys(filters[key := "all"]) == ChipKeys(filters) - {key}
    ensures FilterRows(rows, search, filters[key := "all"]) == FilterRows(rows, search, filters - {key})
  {
    assert filters[key := "all"].Keys == filters.Keys;
    forall row: Row ensures MatchesFilters(row, filters[key := "all"]) <==> MatchesFilters(row, filters - {key}) {
      InertFilterIsNoFilter(row, filters, key, "all");
    }
    SameKeepsSameRows(rows, search, filters[key := "all"], filters - {key});
  }

  lemma {:induction false} SameKeepsSameRows(rows: seq<Row>, search: string, f: map<string, string>, g: map<string, string>)
    requires forall row: Row :: MatchesFilters(row, f) <==> MatchesFilters(row, g)
    ensures FilterRows(rows, search, f) == FilterRows(rows, search, g)
  {
    if rows != [] {
      SameKeepsSameRows(rows[1..], search, f, g);
    }
  }

  /** The text of a chip's value: the filter option's label for it, unless
      that label is empty or missing, in which case the value itself
      (`?.label || value`). */
  function ChipLabel(defs: seq<FilterDef>, key: string, value: string): (l: string)
    ensures FindFilter(defs, key).None? ==> l == value
    ensures FindFilter(defs, key).Some? ==>
              var c := LabelFor(defs[FindFilter(defs, key).value].options, value);
              l == if c == "" then value else c
    ensures l == "" ==> value == ""
  {
    match FindFilter(defs, key)
    case None => value
    case Some(d) =>
      var options := defs[d].options;
      match FindByValue(options, value)
      case None => value
      case Some(i) => if options[i].caption == "" then value else options[i].caption
  }

  /** `filters.find((f) => f.key === key)`. */
  function FindFilter(defs: seq<FilterDef>, key: string): (r: Option<nat>)
    ensures r.None? <==> forall i :: 0 <= i < |defs| ==> defs[i].key != key
    ensures r.Some? ==> r.value < |defs| && defs[r.value].key == key
    ensures r.Some? ==> forall j :: 0 <= j < r.value ==> defs[j].key != key
  {
    if defs == [] then None
    else if defs[0].key == key then Some(0)
    else
      match FindFilter(defs[1..], key)
      case None => None
      case Some(i) => Some(i + 1)
  }

  /** The rows-per-page choices of the pagination bar. */
  const RowsPerPageOptions: seq<nat> := [5, 10, 20, 50]

  /** Where a navigation button leaves the page: disabled buttons (first
      and previous on page 1, next and last on page `totalPages`, compared
      with `===`) and a hidden bar (`totalPages <= 1`) leave it alone. */
  function Navigate(b: Pagination.Button, page: int, pages: nat): (p: int)
    ensures page >= 1 ==> p >= 1
    ensures 1 <= page <= pages ==> 1 <= p <= pages
    ensures pages <= 1 ==> p == page
  {
    var disabled := match b
      case First | Previous => page == 1
      case Next | Last => page == pages;
    if pages > 1 && !disabled then Pagination.Target(b, page, pages) else page
  }

  /** Because the next button is disabled only on `page == totalPages`, a
      page already past the last one keeps moving further out. */
  lemma NextPastLastMovesOn(page: int, pages: nat)
    requires pages > 1 && page > pages
    ensures Navigate(Pagination.Next, page, pages) == page + 1
  {
  }

  /** The page the box accepts from typed text: `parseInt` succeeds and
      gives a page in `1..totalPages`. */
  function EnteredPage(text: string, pages: nat): (r: Option<int>)
    ensures r.Some? ==> 1 <= r.value <= pages
    ensures r.Some? <==> (Numbers.ParseInt(text).Some? &&
                          1 <= Numbers.ParseInt(text).value <= pages)
  {
    match Numbers.ParseInt(text)
    case Some(v) => if 1 <= v <= pages then Some(v) else None
    case None => None
  }

  /** Typing the decimal form of a page in range goes to that page. */
  lemma EnterDecimalPage(n: nat, pages: nat)
    requires 1 <= n <= pages
    ensures EnteredPage(Numbers.DecimalString(n), pages) == Some(n as int)
  {
    var d := Numbers.DecimalString(n);
    assert d[..|d|] == d;
    assert Numbers.DecimalThenStop(d, n);
  }

  // ---------------------------------------------------------------------
  // The component's state
  // ---------------------------------------------------------------------

  class Table {
    const columns: seq<Column>
    const data: seq<Row>
    const filterDefs: seq<FilterDef>

    var search: string
    var currentPage: int
    var rowsPerPage: nat
    var selectedRows: set<string>
    var activeFilters: map<string, string>
    var visibleColumns: set<string>

    /** Pages count from 1, and a page holds at least one row. */
    ghost predicate Valid()
      reads this
    {
      currentPage >= 1 && rowsPerPage >= 1
    }

    constructor (columns: seq<Column>, data: seq<Row>, filterDefs: seq<FilterDef>, pageSize: nat)
      requires pageSize >= 1
      ensures Valid()
      ensures this.columns == columns && this.data == data && this.filterDefs == filterDefs
      ensures search == "" && currentPage == 1 && rowsPerPage == pageSize
      ensures selectedRows == {} && activeFilters == map[]
      ensures visibleColumns == Keys(columns)
    {
      this.columns := columns;
      this.data := data;
      this.filterDefs := filterDefs;
      search := "";
      currentPage := 1;
      rowsPerPage := pageSize;
      selectedRows := {};
      activeFilters := map[];
      visibleColumns := Keys(columns);
    }

    /** `filteredData`. */
    function Filtered(): seq<Row>
      reads this
    {
      FilterRows(data, search, activeFilters)
    }

    function TotalPages(): nat
      reads this
      requires Valid()
    {
      Pagination.TotalPages(|Filtered()|, rowsPerPage)
    }

    /** `currentPaginatedData`. */
    function Visible(): seq<Row>
      reads this
      requires Valid()
    {
      PageRows(Filtered(), currentPage, rowsPerPage)
    }

    /** The search box. The page is left where it was. */
    method SetSearch(text: string)
      requires Valid()
      modifies this
      ensures Valid()
      ensures search == text
      ensures currentPage == old(currentPage) && rowsPerPage == old(rowsPerPage)
      ensures selectedRows == old(selectedRows) && activeFilters == old(activeFilters)
      ensures visibleColumns == old(visibleColumns)
    {
      search := text;
    }

    /** A filter's select: sets that key only, "all" included. */
    method SelectFilter(key: string, value: string)
      requires Valid()
      modifies this
      ensures Valid()
      ensures activeFilters == old(activeFilters)[key := value]
      ensures search == old(search) && currentPage == old(currentPage)
      ensures rowsPerPage == old(rowsPerPage) && selectedRows == old(selectedRows)
      ensures visibleColumns == old(visibleColumns)
    {
      activeFilters := activeFilters[key := value];
    }

    /** A chip's close button: deletes that key only. */
    method RemoveChip(key: string)
      requires Valid()
      modifies this
      ensures Valid()
      ensures activeFilters == old(activeFilters) - {key}
      ensures search == old(search) && currentPage == old(currentPage)
      ensures rowsPerPage == old(rowsPerPage) && selectedRows == old(selectedRows)
      ensures visibleColumns == old(visibleColumns)
    {
      activeFilters := activeFilters - {key};
    }

    /** `clearFilters`: no filters and no search, every row back; the page
      and the selection are kept. */
    method ClearFilters()
      requires Valid()
      modifies this
      ensures Valid()
      ensures activeFilters == map[] && search == ""
      ensures Filtered() == data
      ensures currentPage == old(currentPage) && rowsPerPage == old(rowsPerPage)
      ensures selectedRows == old(selectedRows) && visibleColumns == old(visibleColumns)
    {
      activeFilters := map[];
      search := "";
      ClearedKeepsAll(data);
    }

    /** A row's checkbox. */
    method ToggleSelect(id: string)
      requires Valid()
      modifies this
      ensures Valid()
      ensures selectedRows == Flip(old(selectedRows), id)
      ensures search == old(search) && currentPage == old(currentPage)
      ensures rowsPerPage == old(rowsPerPage) && activeFilters == old(activeFilters)
      ensures visibleColumns == old(visibleColumns)
    {
      var next := selectedRows;
      if id in next {
        next := next - {id};
      } else {
        next := next + {id};
      }
      selectedRows := next;
    }

    /** The header checkbox. */
    method ToggleSelectAll()
      requires Valid()
      modifies this
      ensures Valid()
      ensures selectedRows == SelectAll(old(selectedRows), old(Visible()))
      ensures search == old(search) && currentPage == old(currentPage)
      ensures rowsPerPage == old(rowsPerPage) && activeFilters == old(activeFilters)
      ensures visibleColumns == old(visibleColumns)
    {
      var page := Visible();
      if |selectedRows| == |page| {
        selectedRows := {};
      } else {
        selectedRows := set k | 0 <= k < |page| :: page[k]["id"];
      }
    }

    /** A column's checkbox in the column menu. */
    method SetColumnVisible(key: string, checked: bool)
      requires Valid()
      modifies this
      ensures Valid()
      ensures visibleColumns == SetVisibility(old(visibleColumns), key, checked)
      ensures search == old(search) && currentPage == old(currentPage)
      ensures rowsPerPage == old(rowsPerPage) && activeFilters == old(activeFilters)
      ensures selectedRows == old(selectedRows)
    {
      var next := visibleColumns;
      if checked {
        next := next + {key};
      } else {
        next := next - {key};
      }
      visibleColumns := next;
    }

    /** The rows-per-page select, shown with the pagination bar only: the
      chosen size (through `Number(String(size))`) and back to page 1. */
    method ChooseRowsPerPage(size: nat)
      requires Valid() && size in RowsPerPageOptions
      modifies this
      ensures Valid()
      ensures old(TotalPages()) > 1 ==> rowsPerPage == size && currentPage == 1
      ensures old(TotalPages()) <= 1 ==> rowsPerPage == old(rowsPerPage) && currentPage == old(currentPage)
      ensures search == old(search) && selectedRows == old(selectedRows)
      ensures activeFilters == old(activeFilters) && visibleColumns == old(visibleColumns)
    {
      if TotalPages() > 1 {
        rowsPerPage := Pagination.ChosenPageSize(size);
        currentPage := 1;
      }
    }

    /** The page box, shown with the pagination bar only: a typed page is
      taken when it parses and lies in `1..totalPages`. */
    method EnterPage(text: string)
      requires Valid()
      modifies this
      ensures Valid()
      ensures old(TotalPages()) > 1 && EnteredPage(text, old(TotalPages())).Some? ==>
                currentPage == EnteredPage(text, old(TotalPages())).value
      ensures old(TotalPages()) <= 1 || EnteredPage(text, old(TotalPages())).None? ==>
                currentPage == old(currentPage)
      ensures search == old(search) && rowsPerPage == old(rowsPerPage)
      ensures selectedRows == old(selectedRows) && activeFilters == old(activeFilters)
      ensures visibleColumns == old(visibleColumns)
    {
      var pages := TotalPages();
      if pages > 1 {
        var val := Numbers.ParseInt(text);
        if val.Some? && val.value >= 1 && val.value <= pages {
          currentPage := val.value;
        }
      }
    }

    /** The first, previous, next and last buttons. */
    method ClickNavigation(b: Pagination.Button)
      requires Valid()
      modifies this
      ensures Valid()
      ensures currentPage == Navigate(b, old(currentPage), old(TotalPages()))
      ensures search == old(search) && rowsPerPage == old(rowsPerPage)
      ensures selectedRows == old(selectedRows) && activeFilters == old(activeFilters)
      ensures visibleColumns == old(visibleColumns)
    {
      var pages := TotalPages();
      if pages > 1 {
        match b {
          case First =>
            if currentPage != 1 { currentPage := 1; }
          case Previous =>
            if currentPage != 1 { currentPage := currentPage - 1; }
          case Next =>
            if currentPage != pages { currentPage := currentPage + 1; }
          case Last =>
            if currentPage != pages { currentPage := pages; }
        }
      }
    }
  }
}
