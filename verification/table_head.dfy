/** The sortable table header: three columns each with an order selector.
    A column shows the stored order only while it is the stored sort field;
    every other column shows `desc`. */
module TableHead {
  import opened Types
  import opened RepoSlice
  import opened Store

  datatype Column = Forks | Stars | Updated

  /** The sort-field name a column dispatches and compares against. */
  function ColumnKey(c: Column): string {
    match c
    case Forks => "forks"
    case Stars => "stars"
    case Updated => "updated"
  }

  /** The value a column's selector shows. */
  function DisplayedOrder(s: Store, c: Column): (r: Order)
    ensures s.sortBy == ColumnKey(c) ==> r == s.order
    ensures s.sortBy != ColumnKey(c) ==> r == Desc
    ensures r == Asc <==> s.sortBy == ColumnKey(c) && s.order == Asc
  {
    if s.sortBy == ColumnKey(c) then s.order else Desc
  }

  /** Each column answers to its own sort-field name only. */
  lemma ColumnKeyInjective(c1: Column, c2: Column)
    requires ColumnKey(c1) == ColumnKey(c2)
    ensures c1 == c2
  {
  }

  /** At most one column shows `asc` at any time. */
  lemma AtMostOneAscending(s: Store, c1: Column, c2: Column)
    requires DisplayedOrder(s, c1) == Asc && DisplayedOrder(s, c2) == Asc
    ensures c1 == c2
  {
  }

  /** The option values of each column's order selector. */
  const OrderValues: seq<string> := ["desc", "asc"]

  /** A change on column `c`'s selector delivering option `value`: the sort
      field is set first, then the order (the value is cast, not checked; the
      selector offers only its two options), then a search is started.
      Afterwards `c` shows the chosen order and the other columns show
      `desc`; the request is the same whatever was chosen. */
  function HandleSetDesc(s: Store, c: Column, value: string): (r: Outcome)
    requires value in OrderValues
    ensures r.store.sortBy == ColumnKey(c) && OrderValue(r.store.order) == value
    ensures OrderValue(DisplayedOrder(r.store, c)) == value
    ensures forall d :: d != c ==> DisplayedOrder(r.store, d) == Desc
    ensures r.store == s.(sortBy := ColumnKey(c), order := r.store.order, slice := Pending(s.slice))
    ensures r.request == Some(BuildParams(None, s.slice))
  {
    SelectableOrders(value);
    DispatchFetch(SetOrder(SetSortBy(s, ColumnKey(c)), ParseOrder(value).value), None)
  }

  /** Between the two setters, column `c` already counts as the sort field
      but still shows the previous order. */
  lemma SortFieldSetBeforeOrder(s: Store, c: Column)
    ensures DisplayedOrder(SetSortBy(s, ColumnKey(c)), c) == s.order
  {
  }

  /** The chosen column and order never reach the request. */
  lemma SortChoiceNotSent(s: Store, c1: Column, v1: string, c2: Column, v2: string)
    requires v1 in OrderValues && v2 in OrderValues
    ensures HandleSetDesc(s, c1, v1).request == HandleSetDesc(s, c2, v2).request
  {
  }

  /** Exactly the selector's option values stand for an order, and each
      reads back as itself. */
  lemma SelectableOrders(v: string)
    ensures ParseOrder(v).Some? <==> v in OrderValues
    ensures ParseOrder(v).Some? ==> OrderValue(ParseOrder(v).value) == v
  {
  }
}
