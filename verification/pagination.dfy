/** The pagination control: the page count derived from the total and the
    page size, the guarded previous/next moves, the page-size selector and
    the page label. */
module Pagination {
  import opened Types
  import opened Decimal
  import opened RepoSlice
  import opened Store

  /** `Math.ceil(totalCount / perPage)`: the least number of pages of
      `perPage` rows that holds `totalCount` rows. */
  function TotalPages(totalCount: nat, perPage: int): (r: nat)
    requires perPage > 0
    ensures totalCount <= r * perPage
    ensures r == 0 || (r - 1) * perPage < totalCount
    ensures r == 0 <==> totalCount == 0
  {
    var q := (totalCount + perPage - 1) / perPage;
    var rem := (totalCount + perPage - 1) % perPage;
    assert totalCount + perPage - 1 == q * perPage + rem;
    assert (q - 1) * perPage == q * perPage - perPage;
    q
  }

  function PageCount(s: Store): nat
    requires s.perPage > 0
  {
    TotalPages(s.slice.totalCount, s.perPage)
  }

  /** The previous-page arrow: moves back and fetches only from a page after
      the first; otherwise nothing happens. */
  function HandlePrevPage(s: Store): (r: Outcome)
    ensures r.request.Some? <==> s.slice.page > 1
    ensures r.request.Some? ==>
              && r.store == s.(slice := s.slice.(page := s.slice.page - 1, status := Loading))
              && r.request.value.page == s.slice.page - 1
              && r.request.value.q == None
              && r.request == Some(BuildParams(None, r.store.slice))
    ensures r.request.None? ==> r.store == s
  {
    if s.slice.page > 1 then
      DispatchFetch(s.(slice := SetPage(s.slice, s.slice.page - 1)), None)
    else
      Outcome(s, None)
  }

  /** The next-page arrow: moves on and fetches only from a page before the
      last; otherwise nothing happens. */
  function HandleNextPage(s: Store): (r: Outcome)
    requires s.perPage > 0
    ensures r.request.Some? <==> s.slice.page < PageCount(s)
    ensures r.request.Some? ==>
              && r.store == s.(slice := s.slice.(page := s.slice.page + 1, status := Loading))
              && r.request.value.page == s.slice.page + 1
              && r.request.value.q == None
              && r.request == Some(BuildParams(None, r.store.slice))
    ensures r.request.None? ==> r.store == s
  {
    if s.slice.page < PageCount(s) then
      DispatchFetch(s.(slice := SetPage(s.slice, s.slice.page + 1)), None)
    else
      Outcome(s, None)
  }

  /** The option values of the rows-per-page selector. */
  const PageSizeValues: seq<string> := ["10", "20", "30"]

  /** The rows-per-page selector: stores the chosen size and always
      fetches, keeping the current page even when it lies beyond the new
      page count. */
  function HandlePerPageChange(s: Store, value: string): (r: Outcome)
    requires value in PageSizeValues
    ensures r.store.perPage in {10, 20, 30}
    ensures PageSizeValue(r.store.perPage) == value
    ensures r.store == s.(perPage := r.store.perPage, slice := s.slice.(status := Loading))
    ensures r.request == Some(BuildParams(None, s.slice))
    ensures r.request.value.page == s.slice.page && r.request.value.perPage == 10
  {
    var n := DecimalToNat(value);
    assert n == 10 || n == 20 || n == 30 by {
      PageSizeValuesParse();
    }
    DispatchFetch(SetPerPage(s, n), None)
  }

  /** The rendering of a page size as its selector value. */
  function PageSizeValue(perPage: int): string {
    IntToDecimal(perPage)
  }

  lemma PageSizeValuesParse()
    ensures DecimalToNat("10") == 10 && DecimalToNat("20") == 20 && DecimalToNat("30") == 30
  {
  }

  /** The label `<page>-<totalPages> of <totalPages>`. */
  function PageLabel(page: int, totalPages: nat): string {
    IntToDecimal(page) + "-" + NatToDecimal(totalPages) + " of " + NatToDecimal(totalPages)
  }

  // ----- bounds -----

  /** The page lies between 1 and the page count, or is 1 when there are no
      pages. */
  predicate InBounds(s: Store)
    requires s.perPage > 0
  {
    1 <= s.slice.page <= (if PageCount(s) > 1 then PageCount(s) else 1)
  }

  datatype Move = Prev | Next

  function ApplyMove(s: Store, m: Move): (r: Store)
    requires s.perPage > 0
    ensures r.perPage == s.perPage && r.slice.totalCount == s.slice.totalCount
  {
    match m
    case Prev => HandlePrevPage(s).store
    case Next => HandleNextPage(s).store
  }

  function ApplyMoves(s: Store, moves: seq<Move>): (r: Store)
    requires s.perPage > 0
    ensures r.perPage == s.perPage && r.slice.totalCount == s.slice.totalCount
    decreases |moves|
  {
    if |moves| == 0 then s else ApplyMoves(ApplyMove(s, moves[0]), moves[1..])
  }

  lemma MoveKeepsBounds(s: Store, m: Move)
    requires s.perPage > 0 && InBounds(s)
    ensures InBounds(ApplyMove(s, m))
  {
  }

  /** However the arrows are clicked, a page in bounds stays in bounds. */
  lemma {:induction false} MovesKeepBounds(s: Store, moves: seq<Move>)
    requires s.perPage > 0 && InBounds(s)
    ensures InBounds(ApplyMoves(s, moves))
    decreases |moves|
  {
    if |moves| > 0 {
      MoveKeepsBounds(s, moves[0]);
      MovesKeepBounds(ApplyMove(s, moves[0]), moves[1..]);
    }
  }

  /** Back then forward returns to the same page, when both moves are
      enabled along the way. */
  lemma PrevThenNext(s: Store)
    requires s.perPage > 0 && 1 < s.slice.page <= PageCount(s)
    ensures HandleNextPage(HandlePrevPage(s).store).store.slice.page == s.slice.page
    ensures HandleNextPage(HandlePrevPage(s).store).store == s.(slice := s.slice.(status := Loading))
  {
  }

  /** Forward then back returns to the same page. */
  lemma NextThenPrev(s: Store)
    requires s.perPage > 0 && 1 <= s.slice.page < PageCount(s)
    ensures HandlePrevPage(HandleNextPage(s).store).store == s.(slice := s.slice.(status := Loading))
  {
  }

  /** A larger page size can leave the current page beyond the last one:
      25 results on page 3 of 10 rows, then 30 rows per page. */
  lemma PerPageChangeCanLeaveBounds()
    ensures exists s: Store ::
              s.perPage > 0 && InBounds(s) && !InBounds(HandlePerPageChange(s, "30").store)
  {
    var s := Store(RepoState([], Succeeded, None, 25, 3), 10, "", Desc);
    assert PageCount(s) == 3;
    var r := HandlePerPageChange(s, "30").store;
    assert r.perPage == 30 by {
      PageSizeValuesParse();
    }
    assert PageCount(r) == 1;
  }

  // ----- the label -----

  /** A string cut at a separator that does not occur in either first part
      past its first character is cut at the same place. */
  lemma SplitAtSeparator(a1: string, x1: string, a2: string, x2: string, sep: char)
    requires |a1| >= 1 && |a2| >= 1
    requires forall k :: 1 <= k < |a1| ==> a1[k] != sep
    requires forall k :: 1 <= k < |a2| ==> a2[k] != sep
    requires a1 + [sep] + x1 == a2 + [sep] + x2
    ensures a1 == a2 && x1 == x2
  {
    var t := a1 + [sep] + x1;
    assert t[|a1|] == sep && t[|a2|] == sep;
    assert forall k :: 1 <= k < |a1| ==> t[k] != sep;
    assert forall k :: 1 <= k < |a2| ==> t[k] != sep;
    assert a1 == t[..|a1|] == a2;
    assert x1 == t[|a1| + 1..] == x2;
  }

  /** The label names the page and the page count unambiguously: two
      labels are equal only for the same page and page count. */
  lemma PageLabelInjective(p1: int, t1: nat, p2: int, t2: nat)
    requires PageLabel(p1, t1) == PageLabel(p2, t2)
    ensures p1 == p2 && t1 == t2
  {
    var a1, a2 := IntToDecimal(p1), IntToDecimal(p2);
    var d1, d2 := NatToDecimal(t1), NatToDecimal(t2);
    var x1, x2 := d1 + " of " + d1, d2 + " of " + d2;
    assert PageLabel(p1, t1) == a1 + ['-'] + x1;
    assert PageLabel(p2, t2) == a2 + ['-'] + x2;
    SplitAtSeparator(a1, x1, a2, x2, '-');
    IntToDecimalInjective(p1, p2);
    assert |d1| == |d2|;
    assert d1 == x1[..|d1|] == d2;
    NatToDecimalInjective(t1, t2);
  }

  lemma PageLabelExample()
    ensures PageLabel(2, 6) == "2-6 of 6"
  {
  }
}
