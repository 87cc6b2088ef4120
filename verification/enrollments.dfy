/** The enrollments list of one plan
    (src/components/StudentPlan/StudentPlanEnrollmentsModal.comp.jsx): the
    pagination bar (a sliding window of at most five page numbers, the
    "Showing a to b of n" label, previous and next), the fallback pagination
    computed from the fetched rows, the filter state, and the per-row status
    selectors. */
module Enrollments {
  import opened Wrappers

  function Min(a: int, b: int): int {
    if a <= b then a else b
  }

  /** `Math.ceil(a / b)` for a count `a` and a positive page size `b`. */
  function CeilDiv(a: nat, b: nat): (r: nat)
    requires b > 0
    ensures r * b >= a
    ensures r == 0 || (r - 1) * b < a
  {
    var r := (a + b - 1) / b;
    assert r * b + (a + b - 1) % b == a + b - 1;
    assert (r - 1) * b == r * b - b;
    r
  }

  datatype Pagination = Pagination(total: nat, page: int, limit: nat, pages: nat)

  /** The page number the `i`-th button of the window shows. */
  function PageAt(page: int, pages: nat, i: nat): int {
    if pages <= 5 then i + 1
    else if page <= 3 then i + 1
    else if page >= pages - 2 then pages - 4 + i
    else page - 2 + i
  }

  /** The page-number buttons: `min(5, pages)` consecutive numbers, all of
      them real pages, whatever the current page. */
  function Window(page: int, pages: nat): (r: seq<int>)
    ensures |r| == Min(5, pages)
    ensures forall i :: 0 < i < |r| ==> r[i] == r[i - 1] + 1
    ensures forall i :: 0 <= i < |r| ==> 1 <= r[i] <= pages
  {
    seq(Min(5, pages), i requires 0 <= i => PageAt(page, pages, i))
  }

  /** The window always holds the current page when that page exists. */
  lemma WindowContainsPage(page: int, pages: nat)
    requires 1 <= page <= pages
    ensures page in Window(page, pages)
  {
    var w := Window(page, pages);
    var i := if pages <= 5 || page <= 3 then page - 1
             else if page >= pages - 2 then page - pages + 4
             else 2;
    assert w[i] == page;
  }

  /** The first row number of the "Showing a to b of n" label. */
  function RangeStart(p: Pagination): int {
    (p.page - 1) * p.limit + 1
  }

  /** The last row number of the label. */
  function RangeEnd(p: Pagination): (r: int)
    ensures r <= p.total
    ensures r == p.total || r == p.page * p.limit
  {
    Min(p.page * p.limit, p.total)
  }

  /** When the page count is the ceiling of rows over page size and the page
      exists, the label names a non-empty range of existing rows. */
  lemma RangeLabelWithinRows(p: Pagination)
    requires p.limit > 0 && p.pages == CeilDiv(p.total, p.limit)
    requires 1 <= p.page <= p.pages
    ensures 1 <= RangeStart(p) <= RangeEnd(p) <= p.total
  {
    var k := p.page - 1;
    assert k <= p.pages - 1;
    assert k * p.limit <= (p.pages - 1) * p.limit;
    assert (p.page - 1) * p.limit + p.limit == p.page * p.limit;
  }

  predicate PrevDisabled(p: Pagination) {
    p.page == 1
  }

  predicate NextDisabled(p: Pagination) {
    p.page == p.pages
  }

  /** The bar is rendered only when there is more than one page. */
  predicate Shown(p: Pagination) {
    p.pages > 1
  }

  /** From an existing page, an enabled previous or next button leads to an
      existing page. */
  lemma NavigationStaysInRange(p: Pagination)
    requires 1 <= p.page <= p.pages
    ensures !PrevDisabled(p) ==> 1 <= p.page - 1 <= p.pages
    ensures !NextDisabled(p) ==> 1 <= p.page + 1 <= p.pages
  {
  }

  /** The pagination assumed when the response carries none: every fetched
      row on page 1 of pages of ten. */
  function Fallback(rows: nat): (r: Pagination)
    ensures r.total == rows && r.page == 1 && r.limit == 10
    ensures r.pages * 10 >= rows && (r.pages == 0 || (r.pages - 1) * 10 < rows)
  {
    Pagination(rows, 1, 10, CeilDiv(rows, 10))
  }

  /** `data.data.pagination || {...}`: the response's pagination if any,
      otherwise the fallback. */
  function AfterFetch(server: Option<Pagination>, rows: nat): Pagination {
    server.GetOr(Fallback(rows))
  }

  /** With the fallback, the bar shows exactly when more than ten rows came
      back, and its label then covers rows 1 to 10. */
  lemma FallbackShownIffMoreThanTen(rows: nat)
    ensures Shown(Fallback(rows)) <==> rows > 10
    ensures rows > 0 ==> RangeStart(Fallback(rows)) == 1 && RangeEnd(Fallback(rows)) == Min(10, rows)
  {
    var p := Fallback(rows);
    if rows > 10 {
      assert p.pages * 10 >= rows;
    } else {
      assert p.pages <= 1;
    }
  }

  datatype Filters = Filters(status: string, search: string, page: int, limit: int)

  function InitialFilters(): Filters {
    Filters("", "", 1, 10)
  }

  /** The filter inputs: the search box and the status select. */
  datatype FilterKey = StatusFilter | SearchFilter

  /** `handleFilterChange(key, value)`: the key takes the value and the page
      goes back to 1; the other filter and the page size keep theirs. */
  function FilterChange(f: Filters, key: FilterKey, value: string): (r: Filters)
    ensures r.page == 1 && r.limit == f.limit
    ensures key == StatusFilter ==> r.status == value && r.search == f.search
    ensures key == SearchFilter ==> r.search == value && r.status == f.status
  {
    match key
    case StatusFilter => f.(status := value, page := 1)
    case SearchFilter => f.(search := value, page := 1)
  }

  /** `handlePageChange(page)`: only the page changes. */
  function PageChange(f: Filters, page: int): (r: Filters)
    ensures r.page == page
    ensures r.status == f.status && r.search == f.search && r.limit == f.limit
  {
    f.(page := page)
  }

  datatype Enrollment = Enrollment(id: string, status: string)

  /** No row after `i` has row `i`'s id. */
  predicate LastWithId(rows: seq<Enrollment>, i: nat)
    requires i < |rows|
  {
    forall j :: i < j < |rows| ==> rows[j].id != rows[i].id
  }

  /** The ids of the fetched rows. */
  function Ids(rows: seq<Enrollment>): set<string> {
    set i | 0 <= i < |rows| :: rows[i].id
  }

  /** `Object.fromEntries(rows.map(en => [en._id, en.status]))`: exactly the
      fetched ids, each mapped to the status of its last row. */
  function StatusMap(rows: seq<Enrollment>): (r: map<string, string>)
    ensures r.Keys == Ids(rows)
    ensures forall i :: 0 <= i < |rows| && LastWithId(rows, i) ==> r[rows[i].id] == rows[i].status
  {
    if rows == [] then map[]
    else
      var init := rows[..|rows| - 1];
      var last := rows[|rows| - 1];
      IdsSplitOffLast(rows);
      LastWithIdOfPrefix(rows);
      StatusMap(init)[last.id := last.status]
  }

  lemma IdsSplitOffLast(rows: seq<Enrollment>)
    requires rows != []
    ensures Ids(rows) == Ids(rows[..|rows| - 1]) + {rows[|rows| - 1].id}
  {
    var init := rows[..|rows| - 1];
    forall id | id in Ids(rows) ensures id in Ids(init) + {rows[|rows| - 1].id} {
      var i :| 0 <= i < |rows| && rows[i].id == id;
      if i < |rows| - 1 {
        assert init[i] == rows[i];
      }
    }
    forall id | id in Ids(init) ensures id in Ids(rows) {
      var i :| 0 <= i < |init| && init[i].id == id;
      assert rows[i] == init[i];
    }
  }

  lemma LastWithIdOfPrefix(rows: seq<Enrollment>)
    requires rows != []
    ensures forall i :: 0 <= i < |rows| - 1 && LastWithId(rows, i) ==>
              rows[..|rows| - 1][i] == rows[i] && LastWithId(rows[..|rows| - 1], i)
  {
  }

  /** `updateEnrollmentStatus(id, status)`: the selector of `id` shows the
      new status whether or not the server accepts it; no other row's entry
      changes. */
  function UpdateStatus(m: map<string, string>, id: string, newStatus: string, serverOk: bool)
    : (r: map<string, string>)
    ensures id in r && r[id] == newStatus
    ensures forall k :: k != id ==> (k in r <==> k in m) && (k in m ==> r[k] == m[k])
  {
    m[id := newStatus]
  }

  /** A row's status selector is enabled only while its entry is "enrolled"
      (a row without an entry is disabled). */
  predicate RowEnabled(m: map<string, string>, id: string) {
    id in m && m[id] == "enrolled"
  }

  /** Right after fetching, a row is enabled exactly when the last fetched
      row with its id is enrolled; after an update, exactly when the new
      status is "enrolled". */
  lemma RowEnabledAfterFetchAndUpdate(rows: seq<Enrollment>, i: nat, m: map<string, string>,
                                      id: string, newStatus: string, serverOk: bool)
    requires i < |rows| && LastWithId(rows, i)
    ensures RowEnabled(StatusMap(rows), rows[i].id) <==> rows[i].status == "enrolled"
    ensures RowEnabled(UpdateStatus(m, id, newStatus, serverOk), id) <==> newStatus == "enrolled"
  {
  }
}
