/** The store the components read: the `repos` slice together with the page
    size and sort selection the components also read from it. Those three
    fields and their setters (`setPerPage`, `setSortBy`, `setOrder`) are not
    defined by the slice; they are modelled here as plain assignments. */
module Store {
  import opened Types
  import opened RepoSlice

  /** The two sort orders a column selector offers. */
  datatype Order = Desc | Asc

  /** The `value` of the selector option for an order. */
  function OrderValue(o: Order): string {
    match o
    case Desc => "desc"
    case Asc => "asc"
  }

  /** The order a selector value stands for; only the two option values
      stand for one. */
  function ParseOrder(v: string): (r: Option<Order>)
    ensures r.Some? ==> OrderValue(r.value) == v
  {
    if v == "desc" then Some(Desc) else if v == "asc" then Some(Asc) else None
  }

  /** Each order's option value reads back as that order, so the selector
      offers exactly these two values. */
  lemma OrderRoundTrip(o: Order)
    ensures ParseOrder(OrderValue(o)) == Some(o)
  {
  }

  datatype Store = Store(slice: RepoState, perPage: int, sortBy: string, order: Order)

  function SetPerPage(s: Store, n: int): (r: Store)
    ensures r.perPage == n
    ensures r.slice == s.slice && r.sortBy == s.sortBy && r.order == s.order
  {
    s.(perPage := n)
  }

  function SetSortBy(s: Store, field: string): (r: Store)
    ensures r.sortBy == field
    ensures r.slice == s.slice && r.perPage == s.perPage && r.order == s.order
  {
    s.(sortBy := field)
  }

  function SetOrder(s: Store, o: Order): (r: Store)
    ensures r.order == o
    ensures r.slice == s.slice && r.perPage == s.perPage && r.sortBy == s.sortBy
  {
    s.(order := o)
  }

  /** What a handler leaves behind: the store after the actions it
      dispatched synchronously, and the parameters of the search request it
      started, if any. */
  datatype Outcome = Outcome(store: Store, request: Option<Params>)

  /** Dispatching `fetchRepos(searchTerm)`: the pending action is applied at
      once, then the thunk reads the state to build the request. The
      response arrives later as a separate action. */
  function DispatchFetch(s: Store, searchTerm: Option<string>): (r: Outcome)
    ensures r.store == s.(slice := s.slice.(status := Loading))
    ensures r.request.Some? && r.request.value.page == s.slice.page
    ensures r.request.value.q == searchTerm
    ensures r.request == Some(BuildParams(searchTerm, s.slice))
  {
    var s' := s.(slice := Pending(s.slice));
    Outcome(s', Some(BuildParams(searchTerm, s'.slice)))
  }

  /** The page size and sort selection never reach the request. */
  lemma RequestIgnoresSelection(s: Store, searchTerm: Option<string>, perPage: int, sortBy: string, o: Order)
    ensures DispatchFetch(s.(perPage := perPage, sortBy := sortBy, order := o), searchTerm).request
            == DispatchFetch(s, searchTerm).request
  {
  }

  /** A search for "react" on page 2 with 20 rows per page selected asks
      the API for 10 results per page, sorted by stars in descending
      order. */
  lemma ExampleRequest(s: Store)
    requires s.slice.page == 2 && s.perPage == 20
    ensures DispatchFetch(s, Some("react")).request
            == Some(Params(Some("react"), "stars", "desc", 10, 2))
  {
  }
}
