/** The `repos` slice of the store: the result of the last search and the
    lifecycle of the request that produced it, its four reducers, and the
    request that the `fetchRepos` thunk sends. */
module RepoSlice {
  import opened Types

  /** Lifecycle of the most recent fetch. */
  datatype Status = Idle | Loading | Succeeded | Failed

  /** The slice state. `error` is `None` for `null`; `page` is whatever
      `setPage` was last given, with no bounds. */
  datatype RepoState = RepoState(
    repos: seq<Repo>,
    status: Status,
    error: Option<string>,
    totalCount: nat,
    page: int
  )

  /** The successful response body: its `items` and `total_count` fields. */
  datatype Payload = Payload(items: seq<Repo>, totalCount: nat)

  const InitialState := RepoState([], Idle, None, 0, 1)

  /** The message stored when the failure carries no usable message. */
  const DefaultError := "Failed to fetch repositories"

  /** Every state the reducers can produce from the initial state has this
      shape: a failed state carries an error, a stored error is never empty,
      and an idle state is still the initial one apart from its page. */
  predicate Wf(s: RepoState) {
    && (s.status == Failed ==> s.error.Some?)
    && (s.error.Some? ==> s.error.value != "")
    && (s.status == Idle ==> s.repos == [] && s.totalCount == 0 && s.error == None)
  }

  lemma InitialStateWf()
    ensures Wf(InitialState)
    ensures InitialState.status == Idle && InitialState.page == 1
  {
  }

  /** `setPage`: the page becomes exactly `n`. */
  function SetPage(s: RepoState, n: int): (r: RepoState)
    ensures r.page == n
    ensures r.status == s.status && r.error == s.error && r.repos == s.repos && r.totalCount == s.totalCount
    ensures Wf(s) ==> Wf(r)
  {
    s.(page := n)
  }

  /** `fetchRepos.pending`: only the status moves; an earlier error stays. */
  function Pending(s: RepoState): (r: RepoState)
    ensures r.status == Loading
    ensures r.error == s.error && r.repos == s.repos && r.totalCount == s.totalCount && r.page == s.page
    ensures Wf(s) ==> Wf(r)
  {
    s.(status := Loading)
  }

  /** `fetchRepos.fulfilled`: results and their total are replaced together,
      whatever the current status is. */
  function Fulfilled(s: RepoState, p: Payload): (r: RepoState)
    ensures r.status == Succeeded
    ensures r.repos == p.items && r.totalCount == p.totalCount
    ensures r.error == s.error && r.page == s.page
    ensures Wf(s) ==> Wf(r)
  {
    s.(status := Succeeded, repos := p.items, totalCount := p.totalCount)
  }

  /** `action.error.message || 'Failed to fetch repositories'`: an absent or
      empty message falls back to the default text. */
  function ErrorText(message: Option<string>): (r: string)
    ensures r != ""
    ensures message.Some? && message.value != "" ==> r == message.value
    ensures message.None? || message.value == "" ==> r == DefaultError
  {
    if message.Some? && message.value != "" then message.value else DefaultError
  }

  /** `fetchRepos.rejected`: the previous results stay in place. */
  function Rejected(s: RepoState, message: Option<string>): (r: RepoState)
    ensures r.status == Failed
    ensures r.error == Some(ErrorText(message)) && r.error.value != ""
    ensures r.repos == s.repos && r.totalCount == s.totalCount && r.page == s.page
    ensures Wf(s) ==> Wf(r)
  {
    s.(status := Failed, error := Some(ErrorText(message)))
  }

  /** The query parameters of the search request. `q` is the thunk's
      argument, `None` when it is called without one. */
  datatype Params = Params(q: Option<string>, sort: string, order: string, perPage: int, page: int)

  /** The request headers. */
  datatype Headers = Headers(authorization: string, apiVersion: string)

  const ApiVersion := "2022-11-28"

  /** Parameters the thunk builds from its argument and the state it reads:
      sort, order and page size are fixed, only the page comes from the
      state. */
  function BuildParams(searchTerm: Option<string>, s: RepoState): (r: Params)
    ensures r.q == searchTerm && r.page == s.page
    ensures r.sort == "stars" && r.order == "desc" && r.perPage == 10
  {
    Params(searchTerm, "stars", "desc", 10, s.page)
  }

  /** Headers built from the configured access token. */
  function BuildHeaders(token: string): (r: Headers)
    ensures |r.authorization| == 6 + |token|
    ensures r.authorization[..6] == "token " && r.authorization[6..] == token
    ensures r.apiVersion == ApiVersion
  {
    Headers("token " + token, ApiVersion)
  }

  /** The request depends on the state only through its page. */
  lemma ParamsDependOnlyOnPage(searchTerm: Option<string>, s1: RepoState, s2: RepoState)
    ensures BuildParams(searchTerm, s1) == BuildParams(searchTerm, s2) <==> s1.page == s2.page
  {
  }

  /** The headers are a faithful carrier of the token: distinct tokens give
      distinct headers. */
  lemma HeadersDetermineToken(t1: string, t2: string)
    requires BuildHeaders(t1) == BuildHeaders(t2)
    ensures t1 == t2
  {
  }
}
