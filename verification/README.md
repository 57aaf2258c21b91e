# GitHub repository search: search state, pagination and sort selection

A Dafny model of the client-side search state of a single-page application
that queries the GitHub repository search API. The model has three parts:

- the `repos` slice of the store, modelled as an immutable record with pure
  transition functions. It holds the results, the request lifecycle status
  (`idle | loading | succeeded | failed`), the error, the total count and the
  page. The model covers its four reducers and the request that the
  `fetchRepos` thunk builds;
- the pagination control. It derives a page count from the total and the page
  size, guards the previous/next arrows, and offers a page-size selector and a
  page label;
- the sortable table header. Each column's selector shows the stored order
  only while that column is the stored sort field.

Modules, leaf to root:

- `Types`: the optional value and the `Repo` record. Results are stored and
  replaced whole and never inspected.
- `Decimal`: how JavaScript spells an integer of magnitude below 10^21, and
  how it reads one back (`Number("20")`).
- `RepoSlice`: the state, the initial state, `setPage`, `pending`, `fulfilled`,
  `rejected`, the request parameters and the headers.
- `SliceHistory`: action sequences applied in order. After any sequence, each
  field holds what the last action that writes it wrote.
- `Store`: the slice plus the page size and sort selection that the
  components read. It also holds the dispatch of `fetchRepos`.
- `Pagination` and `TableHead`: the two components' logic.

Assumptions:

- The components dispatch `setPerPage`, `setSortBy` and `setOrder` and read
  `perPage`, `sortBy` and `order` from the slice. The slice as written
  defines none of these. They are modelled as three extra store fields with
  plain-assignment setters (`Store.SetPerPage`, `Store.SetSortBy`,
  `Store.SetOrder`). Their initial values are not modelled.
- Dispatching a thunk applies its `pending` action at once. The thunk then
  reads the state to build the request. `Store.DispatchFetch` returns both
  the store after `pending` and the request parameters. The response arrives
  later as a separate `fulfilled` or `rejected` action (`SliceHistory.Action`).
- The pagination and header handlers call `fetchRepos()` with no argument, so
  `q` is `undefined`. This is modelled as `q == None`. Only the search form
  passes a term.
- The response's `total_count` is taken to be a non-negative integer.

Behaviour a reader might expect that the code does not have:

- `pending` does not clear an earlier error (`SliceHistory.ErrorNeverCleared`).
- The request always asks for `sort=stars`, `order=desc` and `per_page=10`. The
  selected page size and sort never reach it (`Store.RequestIgnoresSelection`,
  `TableHead.SortChoiceNotSent`).
- Nothing ties a response to the request that produced it. The last response
  applied wins, even a stale one (`SliceHistory.StaleResponseOverwrites`).
- The credential is sent as `Authorization: token <TOKEN>`, not as a bearer token.

## Model

| member | source | states |
|---|---|---|
| RepoSlice.InitialStateWf | client/src/redux/slices/repoSlice.ts:16-22 | the initial state is idle on page 1 and satisfies the slice invariant (idle means no results, count 0, no error) |
| RepoSlice.SetPage | client/src/redux/slices/repoSlice.ts:57-59 | the page becomes exactly the argument, unchecked; status, error, results and count are unchanged; the invariant is kept |
| RepoSlice.Pending | client/src/redux/slices/repoSlice.ts:64-66 | status becomes loading; an earlier error is not cleared, and results, count and page are unchanged; the invariant is kept |
| RepoSlice.Fulfilled | client/src/redux/slices/repoSlice.ts:67-71 | status becomes succeeded whatever it was; results and count are taken from the payload together; error and page are unchanged; the invariant is kept |
| RepoSlice.ErrorText | client/src/redux/slices/repoSlice.ts:74-75 | the stored text is never empty: a present non-empty message is used as is, an absent or empty one becomes 'Failed to fetch repositories' |
| RepoSlice.Rejected | client/src/redux/slices/repoSlice.ts:72-76 | status becomes failed; the error is the message or the default text, never empty; results, count and page are unchanged; the invariant is kept |
| RepoSlice.BuildParams | client/src/redux/slices/repoSlice.ts:33-39 | q is the thunk argument, page is the state's page, sort/order/per_page are fixed to stars/desc/10 |
| RepoSlice.ParamsDependOnlyOnPage | client/src/redux/slices/repoSlice.ts:33-39 | two states give the same parameters exactly when their pages agree |
| RepoSlice.BuildHeaders | client/src/redux/slices/repoSlice.ts:40-43 | Authorization is 'token ' followed by the token; API version 2022-11-28 |
| RepoSlice.HeadersDetermineToken | client/src/redux/slices/repoSlice.ts:41 | distinct tokens give distinct headers |
| SliceHistory.ReduceAllPreservesWf | client/src/redux/slices/repoSlice.ts:57-76 | every action sequence keeps the invariant: failed implies an error, errors are non-empty, idle implies the initial data |
| SliceHistory.ReachableWf | client/src/redux/slices/repoSlice.ts:16-76 | every state reachable from the initial state satisfies the invariant |
| SliceHistory.DataUntouchedWithoutFulfilled | client/src/redux/slices/repoSlice.ts:57-76 | without a fulfilled action, results and total count do not change |
| SliceHistory.DataFromLastFulfilled | client/src/redux/slices/repoSlice.ts:67-71 | results and total count are, together, those of the last fulfilled response |
| SliceHistory.PageUntouchedWithoutSetPage | client/src/redux/slices/repoSlice.ts:57-76 | no lifecycle action moves the page |
| SliceHistory.PageFromLastSetPage | client/src/redux/slices/repoSlice.ts:57-59 | the page is the argument of the last setPage |
| SliceHistory.ErrorUntouchedWithoutRejected | client/src/redux/slices/repoSlice.ts:64-71 | pending and fulfilled leave the error as it was |
| SliceHistory.ErrorFromLastRejected | client/src/redux/slices/repoSlice.ts:72-76 | the error is the text of the last rejection even after later successes |
| SliceHistory.ErrorNeverCleared | client/src/redux/slices/repoSlice.ts:64-76 | once set, the error is never reset to null |
| SliceHistory.StatusUntouchedWithoutLifecycle | client/src/redux/slices/repoSlice.ts:57-59 | setPage leaves the status as it was |
| SliceHistory.StatusFromLastLifecycle | client/src/redux/slices/repoSlice.ts:64-76 | the status is that of the last pending/fulfilled/rejected action, with no check of the status it met |
| SliceHistory.IdleUntilFirstLifecycle | client/src/redux/slices/repoSlice.ts:16-76 | from the initial state, the status is idle if and only if no lifecycle action has happened |
| SliceHistory.NotIdleAfterLifecycle | client/src/redux/slices/repoSlice.ts:64-76 | once any request has started or settled, the status is never idle again |
| SliceHistory.StaleResponseOverwrites | client/src/redux/slices/repoSlice.ts:64-71 | with two requests in flight, the response applied last wins even if it is the older one |
| SliceHistory.FulfilledIgnoresStatus | client/src/redux/slices/repoSlice.ts:67-71 | a fulfilled action has the same effect whatever status it meets |
| Store.ParseOrder | client/src/Components/TableHead/TableHead.tsx:42-45 | the unchecked cast of the selector value: a value stands for an order only if it is that order's option value |
| Store.OrderRoundTrip | client/src/Components/TableHead/TableHead.tsx:63-64 | each order's option value reads back as that order |
| Store.SetPerPage | client/src/Components/TablePagination/TablePagination.tsx:41 | (assumed setter) page size becomes the argument; slice, sort field and order untouched |
| Store.SetSortBy | client/src/Components/TableHead/TableHead.tsx:44 | (assumed setter) sort field becomes the argument; slice, page size and order untouched |
| Store.SetOrder | client/src/Components/TableHead/TableHead.tsx:45 | (assumed setter) order becomes the argument; slice, page size and sort field untouched |
| Store.DispatchFetch | client/src/redux/slices/repoSlice.ts:28-39 | starting a fetch sets loading, changes nothing else, and requests the current page with the given term, sorted by stars descending, 10 per page |
| Store.RequestIgnoresSelection | client/src/redux/slices/repoSlice.ts:33-39 | page size, sort field and order have no effect on the request |
| Store.ExampleRequest | client/src/redux/slices/repoSlice.ts:33-39 | 'react' on page 2 with 20 rows selected requests q=react, sort=stars, order=desc, per_page=10, page=2 |
| Pagination.TotalPages | client/src/Components/TablePagination/TablePagination.tsx:20 | the least page count whose pages hold all results; 0 exactly when there are none |
| Pagination.HandlePrevPage | client/src/Components/TablePagination/TablePagination.tsx:23-28 | fetches if and only if the page is after the first; then the page goes back by one and the request asks for it with no term, by stars descending, 10 per page; otherwise nothing changes |
| Pagination.HandleNextPage | client/src/Components/TablePagination/TablePagination.tsx:31-36 | fetches if and only if the page is before the page count; then the page goes on by one and the request asks for it with no term, by stars descending, 10 per page; otherwise nothing changes |
| Pagination.HandlePerPageChange | client/src/Components/TablePagination/TablePagination.tsx:39-43 | the page size becomes the chosen option (10, 20 or 30); a fetch always starts with q undefined and the unchanged page; only the page size and the status (loading) change, so the page is kept |
| Pagination.PageSizeValuesParse | client/src/Components/TablePagination/TablePagination.tsx:54-56 | the option values read as 10, 20 and 30 |
| Pagination.ApplyMove | client/src/Components/TablePagination/TablePagination.tsx:23-36 | an arrow click changes neither page size nor total count |
| Pagination.ApplyMoves | client/src/Components/TablePagination/TablePagination.tsx:23-36 | no sequence of arrow clicks changes page size or total count |
| Pagination.MoveKeepsBounds | client/src/Components/TablePagination/TablePagination.tsx:23-36 | one click keeps the page within 1..max(1, page count) |
| Pagination.MovesKeepBounds | client/src/Components/TablePagination/TablePagination.tsx:23-36 | any sequence of clicks keeps the page within 1..max(1, page count) |
| Pagination.PrevThenNext | client/src/Components/TablePagination/TablePagination.tsx:23-36 | back then forward returns to the same page when both moves are enabled |
| Pagination.NextThenPrev | client/src/Components/TablePagination/TablePagination.tsx:23-36 | forward then back returns to the same page |
| Pagination.PerPageChangeCanLeaveBounds | client/src/Components/TablePagination/TablePagination.tsx:39-43 | some in-bounds page lies beyond the page count after a page-size change |
| Pagination.PageLabelInjective | client/src/Components/TablePagination/TablePagination.tsx:60 | the label `PageLabel` builds, '<page>-<pages> of <pages>', shows page and page count unambiguously |
| Pagination.PageLabelExample | client/src/Components/TablePagination/TablePagination.tsx:60 | page 2 of 6 is labelled '2-6 of 6' |
| Decimal.NatToDecimal | client/src/Components/TablePagination/TablePagination.tsx:60 | a number is shown as digits only, without a leading zero |
| Decimal.DecimalRoundTrip | client/src/Components/TablePagination/TablePagination.tsx:40 | reading a number's digits back gives the number |
| Decimal.IntToDecimal | client/src/Components/TablePagination/TablePagination.tsx:60 | an integer is shown with a leading '-' followed by digits exactly when it is negative, and as digits only otherwise |
| Decimal.IntDecimalRoundTrip | client/src/Components/TablePagination/TablePagination.tsx:60 | the digits shown spell the integer's magnitude: a non-negative integer is shown as its natural rendering and reads back as itself; a negative one reads back, after the '-', as its negation |
| Decimal.IntToDecimalInjective | client/src/Components/TablePagination/TablePagination.tsx:60 | distinct integers are shown differently |
| TableHead.DisplayedOrder | client/src/Components/TableHead/TableHead.tsx:60-84 | the active sort column shows the stored order and every other column shows desc; so a column shows asc exactly when it is the sort field with order asc |
| TableHead.ColumnKeyInjective | client/src/Components/TableHead/TableHead.tsx:60-84 | each column matches its own sort-field name only |
| TableHead.AtMostOneAscending | client/src/Components/TableHead/TableHead.tsx:60-84 | at most one column shows asc at any time |
| TableHead.HandleSetDesc | client/src/Components/TableHead/TableHead.tsx:40-48 | the sort field becomes the column and the order the chosen option; only those and the status (loading) change; the column shows the chosen order and every other column shows desc; the fetch requests the current page with the fixed sort |
| TableHead.SortFieldSetBeforeOrder | client/src/Components/TableHead/TableHead.tsx:44-45 | between the two setters, the column still shows the previous order |
| TableHead.SortChoiceNotSent | client/src/Components/TableHead/TableHead.tsx:40-48 | the request is the same whatever column and order were chosen |
| TableHead.SelectableOrders | client/src/Components/TableHead/TableHead.tsx:63-88 | a selector value stands for an order exactly when it is one of the two options desc and asc, and reads back as itself |

## Left out

- The HTTP GET, the environment lookups of the base URL and token, and the
  console logging are I/O. The token is a parameter. A response is either a
  `Payload` (`items`, `total_count`) or an optional error message.
- The Redux Toolkit machinery is library code: `createAsyncThunk`,
  `createSlice`, `configureStore`, and the dispatch and selector hooks. The
  reducers are modelled directly as functions.
- Overlapping requests, cancellation and response ordering are concurrency.
  The code has no sequencing. The model shows only that any response applied
  wins.
- How axios serialises parameters, including dropping an undefined `q`, is
  library code.
- Pagination.TotalPages: requires a positive page size and uses integer
  ceiling division. `Math.ceil` on floats is not modelled. In particular, the
  slice as written never defines `perPage`, so the page count is `NaN` and the
  next arrow never acts. That case is outside the model.
- Pagination.HandleNextPage: requires a positive page size, for the same
  reason.
- Decimal.IntToDecimal: covers integers only. JavaScript numbers are
  doubles, exact only below 2^53, and `${n}` switches to exponent notation
  from 10^21. Pages and page counts never get near either bound.
- The initial values of the assumed `perPage`, `sortBy` and `order` fields are
  not modelled, because the slice does not define them.
- The presentational components are rendering and styling. They include the
  status-to-view switch in `Main.tsx`, the table list and row, the side panel
  with its date formatting, the search bar and input, the button, the footer
  and the app shell.
