/** The session state of the dashboard and its transitions (`App` and its methods).
    Every method of the source becomes a pure function from the old state to the new
    one; the network calls of the async loaders become a parameter holding the
    outcome of the call. */
module AppState {
  import opened Wrappers
  import opened Models

  /** Rust's `u16`, the type of `scroll_offset`. */
  type U16 = x: int | 0 <= x < 0x1_0000

  datatype AppMode = RepoList | RepoDetail | Search | IssuePopUp

  datatype LoadingState = Idle | Loading | Success | Error(message: string)

  /** The outcome of a call into the remote API: the decoded body, or the error's text. */
  type Fetched<T> = Result<T, string>

  /** The session. `selected` is the cursor the table widget holds
      (`table_state.selected()`). */
  datatype App = App(
    user: string,
    token: string,
    mode: AppMode,
    shouldQuit: bool,
    repos: seq<Repo>,
    selectedRepo: Option<Repo>,
    selected: Option<nat>,
    loadingState: LoadingState,
    searchInput: string,
    scrollOffset: U16)

  /** Whenever there are repositories, the cursor points at one of them. */
  predicate CursorValid(app: App) {
    |app.repos| > 0 ==> app.selected.Some? && app.selected.value < |app.repos|
  }

  /** The session at start-up: list mode, nothing loaded, cursor on row 0. */
  function New(username: string, token: string): (app: App)
    ensures app.user == username && app.token == token
    ensures app.mode == RepoList && !app.shouldQuit
    ensures app.repos == [] && app.selectedRepo == None
    ensures app.loadingState == Idle && app.searchInput == [] && app.scrollOffset == 0
    ensures app.selected == Some(0)
    ensures CursorValid(app)
  {
    App(username, token, RepoList, false, [], None, Some(0), Idle, [], 0)
  }

  /** Moves the cursor one row down, wrapping from the last row to the first. */
  function NextRepo(app: App): (r: App)
    ensures |app.repos| == 0 ==> r == app
    ensures r == app.(selected := r.selected)
    ensures |app.repos| > 0 ==> r.selected.Some? && r.selected.value < |app.repos|
    ensures app.selected == None && |app.repos| > 0 ==> r.selected == Some(0)
    ensures forall i :: app.selected == Some(i) && i + 1 < |app.repos| ==> r.selected == Some(i + 1)
    ensures forall i :: app.selected == Some(i) && 0 < |app.repos| <= i + 1 ==> r.selected == Some(0)
    ensures CursorValid(r)
  {
    if |app.repos| == 0 then app
    else
      var i := match app.selected
        case Some(i) => if i >= |app.repos| - 1 then 0 else i + 1
        case None => 0;
      app.(selected := Some(i))
  }

  /** Moves the cursor one row up, wrapping from the first row to the last. */
  function PreviousRepo(app: App): (r: App)
    ensures |app.repos| == 0 ==> r == app
    ensures r == app.(selected := r.selected)
    ensures |app.repos| > 0 ==> r.selected.Some?
    ensures app.selected == None && |app.repos| > 0 ==> r.selected == Some(0)
    ensures app.selected == Some(0) && |app.repos| > 0 ==> r.selected == Some(|app.repos| - 1)
    ensures forall i :: app.selected == Some(i) && 0 < i && |app.repos| > 0 ==> r.selected == Some(i - 1)
    ensures CursorValid(app) ==> CursorValid(r)
  {
    if |app.repos| == 0 then app
    else
      var i := match app.selected
        case Some(i) => if i == 0 then |app.repos| - 1 else i - 1
        case None => 0;
      app.(selected := Some(i))
  }

  /** Copies the repository under the cursor into the detail screen and opens it. */
  function SelectCurrentRepo(app: App): (r: App)
    ensures app.selected.None? ==> r == app
    ensures app.selected.Some? ==>
      r == app.(selectedRepo := r.selectedRepo, mode := RepoDetail, scrollOffset := 0)
    ensures app.selected.Some? ==> (r.selectedRepo.Some? <==> app.selected.value < |app.repos|)
    ensures app.selected.Some? && app.selected.value < |app.repos| ==>
      r.selectedRepo == Some(app.repos[app.selected.value])
    ensures CursorValid(app) ==> CursorValid(r)
  {
    match app.selected
    case Some(i) => app.(selectedRepo := Get(app.repos, i), mode := RepoDetail, scrollOffset := 0)
    case None => app
  }

  /** Leaves whatever screen is open for the repository list, dropping the selection. */
  function BackToList(app: App): (r: App)
    ensures r.mode == RepoList && r.selectedRepo == None
    ensures r == app.(mode := r.mode, selectedRepo := r.selectedRepo)
    ensures CursorValid(app) ==> CursorValid(r)
  {
    app.(mode := RepoList, selectedRepo := None)
  }

  /** Opens the search prompt with an empty input. */
  function EnterSearchMode(app: App): (r: App)
    ensures r.mode == Search && r.searchInput == []
    ensures r == app.(mode := r.mode, searchInput := r.searchInput)
    ensures CursorValid(app) ==> CursorValid(r)
  {
    app.(mode := Search, searchInput := [])
  }

  /** The common tail of `load_user_repos` and `search_repositories`: store a fetched
      list, or the error, and resolve the loading status. */
  function ApplyFetchedRepos(app: App, fetched: Fetched<seq<Repo>>): (r: App)
    ensures r == app.(repos := r.repos, loadingState := r.loadingState, selected := r.selected)
    ensures fetched.Ok? ==> r.repos == fetched.value && r.loadingState == Success
    ensures fetched.Ok? && |fetched.value| > 0 ==> r.selected == Some(0)
    ensures fetched.Ok? && |fetched.value| == 0 ==> r.selected == app.selected
    ensures fetched.Err? ==>
      r.repos == app.repos && r.selected == app.selected && r.loadingState == Error(fetched.error)
    ensures fetched.Ok? ==> CursorValid(r)
    ensures CursorValid(app) ==> CursorValid(r)
  {
    match fetched
    case Ok(repos) =>
      var loaded := app.(repos := repos, loadingState := Success);
      if |repos| > 0 then loaded.(selected := Some(0)) else loaded
    case Err(e) => app.(loadingState := Error(e))
  }

  /** Loads the user's repositories; `fetched` is what fetching them for `app.user` gave. */
  function LoadUserRepos(app: App, fetched: Fetched<seq<Repo>>): (r: App)
    ensures r == app.(repos := r.repos, loadingState := r.loadingState, selected := r.selected)
    ensures r.loadingState != Loading
    ensures fetched.Ok? ==> r.repos == fetched.value && r.loadingState == Success
    ensures fetched.Ok? && |fetched.value| > 0 ==> r.selected == Some(0)
    ensures fetched.Ok? && |fetched.value| == 0 ==> r.selected == app.selected
    ensures fetched.Err? ==>
      r.repos == app.repos && r.selected == app.selected && r.loadingState == Error(fetched.error)
    ensures CursorValid(app) ==> CursorValid(r)
  {
    ApplyFetchedRepos(app.(loadingState := Loading), fetched)
  }

  /** Runs the search typed so far; `fetched` is what the search call gave.
      An empty input is ignored outright. */
  function SearchRepositories(app: App, fetched: Fetched<seq<Repo>>): (r: App)
    ensures app.searchInput == [] ==> r == app
    ensures app.searchInput != [] ==>
      r == app.(mode := RepoList, repos := r.repos, loadingState := r.loadingState, selected := r.selected)
    ensures app.searchInput != [] ==> r.mode == RepoList && r.loadingState != Loading
    ensures app.searchInput != [] && fetched.Ok? ==>
      r.repos == fetched.value && r.loadingState == Success
    ensures app.searchInput != [] && fetched.Ok? && |fetched.value| > 0 ==> r.selected == Some(0)
    ensures app.searchInput != [] && fetched.Ok? && |fetched.value| == 0 ==> r.selected == app.selected
    ensures app.searchInput != [] && fetched.Err? ==>
      r.repos == app.repos && r.selected == app.selected && r.loadingState == Error(fetched.error)
    ensures CursorValid(app) ==> CursorValid(r)
  {
    if |app.searchInput| == 0 then app
    else ApplyFetchedRepos(app.(loadingState := Loading, mode := RepoList), fetched)
  }

  /** Replaces the detail screen's repository with a freshly fetched one. */
  function LoadRepoDetails(app: App, fetched: Fetched<Repo>): (r: App)
    ensures r == app.(selectedRepo := r.selectedRepo, loadingState := r.loadingState)
    ensures fetched.Ok? ==> r.selectedRepo == Some(fetched.value) && r.loadingState == Success
    ensures fetched.Err? ==>
      r.selectedRepo == app.selectedRepo && r.loadingState == Error(fetched.error)
    ensures CursorValid(app) ==> CursorValid(r)
  {
    var loading := app.(loadingState := Loading);
    match fetched
    case Ok(repo) => loading.(selectedRepo := Some(repo), loadingState := Success)
    case Err(e) => loading.(loadingState := Error(e))
  }

  /** For a valid cursor, moving down then up returns to the same state. */
  lemma NextThenPrevious(app: App)
    requires app.selected.Some? && app.selected.value < |app.repos|
    ensures PreviousRepo(NextRepo(app)) == app
  {
  }

  /** For a valid cursor, moving up then down returns to the same state. */
  lemma PreviousThenNext(app: App)
    requires app.selected.Some? && app.selected.value < |app.repos|
    ensures NextRepo(PreviousRepo(app)) == app
  {
  }

  /** Enter on an empty list still opens the detail screen, with no repository. */
  lemma SelectOnEmptyListOpensEmptyDetail(app: App)
    requires app.repos == [] && app.selected.Some?
    ensures SelectCurrentRepo(app).mode == RepoDetail
    ensures SelectCurrentRepo(app).selectedRepo == None
  {
  }

  /** Every state transition of the session, with the outcome of any network call. */
  datatype Op =
    | Next
    | Previous
    | SelectCurrent
    | Back
    | EnterSearch
    | LoadUser(repos: Fetched<seq<Repo>>)
    | SearchRepos(results: Fetched<seq<Repo>>)
    | LoadDetails(repo: Fetched<Repo>)

  function Step(app: App, op: Op): (r: App)
  {
    match op
    case Next => NextRepo(app)
    case Previous => PreviousRepo(app)
    case SelectCurrent => SelectCurrentRepo(app)
    case Back => BackToList(app)
    case EnterSearch => EnterSearchMode(app)
    case LoadUser(f) => LoadUserRepos(app, f)
    case SearchRepos(f) => SearchRepositories(app, f)
    case LoadDetails(f) => LoadRepoDetails(app, f)
  }

  /** The state after performing `ops` in order. */
  function Run(app: App, ops: seq<Op>): (r: App)
    ensures |ops| == 0 ==> r == app
    decreases |ops|
  {
    if |ops| == 0 then app else Run(Step(app, ops[0]), ops[1..])
  }

  /** Every operation of the session keeps the cursor valid. */
  lemma StepPreservesCursorValid(app: App, op: Op)
    requires CursorValid(app)
    ensures CursorValid(Step(app, op))
  {
  }

  /** No operation ever clears the cursor. */
  lemma StepKeepsCursor(app: App, op: Op)
    requires app.selected.Some?
    ensures Step(app, op).selected.Some?
  {
  }

  /** The cursor stays valid over any sequence of operations. */
  lemma {:induction false} RunPreservesCursorValid(app: App, ops: seq<Op>)
    requires CursorValid(app)
    ensures CursorValid(Run(app, ops))
    decreases |ops|
  {
    if |ops| > 0 {
      StepPreservesCursorValid(app, ops[0]);
      RunPreservesCursorValid(Step(app, ops[0]), ops[1..]);
    }
  }

  /** From start-up, every reachable session has a present and valid cursor, so the
      `None` branch of `select_current_repo` is never taken. */
  lemma {:induction false} ReachableCursorPresentAndValid(username: string, token: string, ops: seq<Op>)
    ensures Run(New(username, token), ops).selected.Some?
    ensures CursorValid(Run(New(username, token), ops))
  {
    RunPreservesCursorValid(New(username, token), ops);
    RunKeepsCursor(New(username, token), ops);
  }

  lemma {:induction false} RunKeepsCursor(app: App, ops: seq<Op>)
    requires app.selected.Some?
    ensures Run(app, ops).selected.Some?
    decreases |ops|
  {
    if |ops| > 0 {
      StepKeepsCursor(app, ops[0]);
      RunKeepsCursor(Step(app, ops[0]), ops[1..]);
    }
  }
}
