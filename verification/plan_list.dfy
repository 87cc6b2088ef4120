/** The plan list (src/components/StudentPlan/StudentPlans.comp.jsx): the
    query object behind the list request, the handlers that edit it, the
    page bounds, and the guards in front of a deletion. */
module PlanList {
  import opened Wrappers

  /** A query value: a number, a string, or `null`. */
  datatype QueryValue = Num(n: int) | Str(s: string) | Null

  type Query = map<string, QueryValue>

  const PageKey: string := "page"
  const SearchKey: string := "search"

  /** The query holds `v` under `k`. */
  predicate Has(q: Query, k: string, v: QueryValue) {
    k in q && q[k] == v
  }

  /** The list opens on page 1 of ten, newest first, with every filter empty. */
  function InitialQuery(): (q: Query)
    ensures Has(q, PageKey, Num(1)) && Has(q, "limit", Num(10))
    ensures Has(q, "sortBy", Str("createdAt")) && Has(q, "sortOrder", Str("desc"))
    ensures forall k :: k in q && k !in {PageKey, "limit", "sortBy", "sortOrder"} ==> q[k] == Str("")
  {
    map[PageKey := Num(1), "limit" := Num(10), "sortBy" := Str("createdAt"),
        "sortOrder" := Str("desc"), SearchKey := Str(""), "paymentType" := Str(""),
        "paymentMode" := Str(""), "status" := Str(""), "minAmount" := Str(""),
        "maxAmount" := Str(""), "hasInstallments" := Str("")]
  }

  /** A value the request leaves out: the empty string or `null`. */
  predicate Omitted(v: QueryValue) {
    v == Str("") || v == Null
  }

  /** The request parameters `fetchPlans` builds: the entries of the query
      whose value is neither "" nor null, unchanged. */
  function Params(q: Query): (r: Query)
    ensures forall k :: k in r <==> k in q && !Omitted(q[k])
    ensures forall k :: k in r ==> r[k] == q[k]
  {
    map k | k in q && !Omitted(q[k]) :: q[k]
  }

  /** A fresh list asks for page 1 of ten, newest first, and nothing else. */
  lemma InitialParams()
    ensures Params(InitialQuery()) ==
            map[PageKey := Num(1), "limit" := Num(10), "sortBy" := Str("createdAt"),
                "sortOrder" := Str("desc")]
  {
    var q := InitialQuery();
    var p := Params(q);
    var e := map[PageKey := Num(1), "limit" := Num(10), "sortBy" := Str("createdAt"),
                 "sortOrder" := Str("desc")];
    assert p.Keys == e.Keys;
  }

  /** `handleFilterChange(field, value)`: the field takes the value and the
      page goes back to 1 (the page wins when the field is the page itself);
      every other entry keeps its value. */
  function FilterChange(q: Query, field: string, value: QueryValue): (r: Query)
    ensures Has(r, PageKey, Num(1))
    ensures field != PageKey ==> Has(r, field, value)
    ensures forall k :: k != field && k != PageKey ==> (k in r <==> k in q) && (k in q ==> r[k] == q[k])
  {
    q[field := value][PageKey := Num(1)]
  }

  /** `handleSearchChange(e)`: the search text changes and the page goes
      back to 1. */
  function SearchChange(q: Query, text: string): (r: Query)
    ensures Has(r, SearchKey, Str(text)) && Has(r, PageKey, Num(1))
    ensures forall k :: k != SearchKey && k != PageKey ==> (k in r <==> k in q) && (k in q ==> r[k] == q[k])
  {
    FilterChange(q, SearchKey, Str(text))
  }

  /** After a search change the request carries the search text exactly when
      it is non-empty. */
  lemma SearchSentIffNonEmpty(q: Query, text: string)
    ensures SearchKey in Params(SearchChange(q, text)) <==> text != ""
    ensures Has(Params(SearchChange(q, text)), PageKey, Num(1))
  {
  }

  /** `data.totalPages || 1`: a missing or zero page count reads as 1. */
  function TotalPagesFrom(response: Option<int>): (r: int)
    ensures r != 0
    ensures response.Some? && response.value != 0 ==> r == response.value
    ensures response.None? || response.value == 0 ==> r == 1
  {
    match response
    case Some(n) => if n == 0 then 1 else n
    case None => 1
  }

  /** The current page of the query. */
  predicate OnPage(q: Query, page: int) {
    Has(q, PageKey, Num(page))
  }

  /** `handlePageChange(newPage)`: the page moves only to an existing page
      (1 to `totalPages`); otherwise nothing changes. */
  function PageChange(q: Query, newPage: int, totalPages: int): (r: Query)
    ensures 0 < newPage <= totalPages ==> OnPage(r, newPage)
    ensures !(0 < newPage <= totalPages) ==> r == q
    ensures forall k :: k != PageKey ==> (k in r <==> k in q) && (k in q ==> r[k] == q[k])
  {
    if 0 < newPage && newPage <= totalPages then q[PageKey := Num(newPage)] else q
  }

  /** From an existing page, no page change can leave the existing pages. */
  lemma PageChangeStaysInRange(q: Query, page: int, newPage: int, totalPages: int)
    requires OnPage(q, page) && 1 <= page <= totalPages
    ensures exists p :: 1 <= p <= totalPages && OnPage(PageChange(q, newPage, totalPages), p)
  {
    if 0 < newPage <= totalPages {
      assert OnPage(PageChange(q, newPage, totalPages), newPage);
    } else {
      assert OnPage(PageChange(q, newPage, totalPages), page);
    }
  }

  predicate PrevDisabled(q: Query) {
    OnPage(q, 1)
  }

  predicate NextDisabled(q: Query, totalPages: int) {
    OnPage(q, totalPages)
  }

  /** From an existing page, the enabled previous and next buttons move by
      one page. */
  lemma PrevNextMoveByOne(q: Query, page: int, totalPages: int)
    requires OnPage(q, page) && 1 <= page <= totalPages
    ensures !PrevDisabled(q) ==> OnPage(PageChange(q, page - 1, totalPages), page - 1)
    ensures !NextDisabled(q, totalPages) ==> OnPage(PageChange(q, page + 1, totalPages), page + 1)
  {
  }

  /** When the response gives no page count (or zero), the list has one
      page: on it, both buttons are disabled and no page change moves. */
  lemma MissingCountMeansOnePage(q: Query, response: Option<int>, newPage: int)
    requires OnPage(q, 1) && (response.None? || response.value == 0)
    ensures PrevDisabled(q) && NextDisabled(q, TotalPagesFrom(response))
    ensures PageChange(q, newPage, TotalPagesFrom(response)) == q
  {
  }

  /** A listed plan as `handleDelete` sees it. */
  datatype Plan = Plan(id: Option<string>, name: string)

  /** `handleDelete(plan)`: the id of the plan to delete, if a request is
      made; none without an id (missing or empty) or when the user declines
      the confirmation. */
  function DeleteRequest(plan: Plan, confirmed: bool): (r: Option<string>)
    ensures r.Some? <==> plan.id.Some? && plan.id.value != "" && confirmed
    ensures r.Some? ==> plan.id == r
  {
    match plan.id
    case None => None
    case Some(id) => if id == "" || !confirmed then None else Some(id)
  }

  /** Among plans with distinct ids, a confirmed deletion of plan `i`
      targets plan `i` and no other. */
  lemma DeleteTargetsOnePlan(plans: seq<Plan>, i: nat)
    requires i < |plans|
    requires forall j, k :: 0 <= j < k < |plans| ==> plans[j].id != plans[k].id
    requires plans[i].id.Some? && plans[i].id.value != ""
    ensures forall j :: 0 <= j < |plans| ==> (plans[j].id == DeleteRequest(plans[i], true) <==> j == i)
  {
    forall j | 0 <= j < |plans| ensures plans[j].id == DeleteRequest(plans[i], true) <==> j == i {
      if j < i {
        assert plans[j].id != plans[i].id;
      } else if i < j {
        assert plans[i].id != plans[j].id;
      }
    }
  }
}
