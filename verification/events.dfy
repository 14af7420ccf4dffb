/** The key router: one key press, in the current mode, becomes one session
    transition plus a flag telling its caller whether to stop. */
module Events {
  import opened Wrappers
  import opened Models
  import opened AppState

  /** The part of a key event the router reads (its `code`). Keys the router never
      names are collapsed into `Other`. */
  datatype KeyCode = Char(c: char) | Enter | Esc | Backspace | Tab | Up | Down | Other

  /** What handling one key produced: the new session and whether to quit. */
  datatype Handled = Handled(app: App, quit: bool)

  /** The search input with its last character removed; empty input stays empty
      (`String::pop`). */
  function Pop(s: string): (r: string)
    ensures |s| == 0 ==> r == s
    ensures |s| > 0 ==> r + [s[|s| - 1]] == s
  {
    if |s| == 0 then s else s[..|s| - 1]
  }

  /** The issue popup: only Esc does anything. */
  function HandleIssuePopupKeys(app: App, key: KeyCode): (r: App)
    ensures key == Esc ==> r == BackToList(app)
    ensures key != Esc ==> r == app
  {
    match key
    case Esc => BackToList(app)
    case _ => app
  }

  /** The repository list: j/Down and k/Up move the cursor, '/' opens the search. */
  function HandleRepoListKeys(app: App, key: KeyCode): (r: App)
    ensures key == Down || key == Char('j') ==> r == NextRepo(app)
    ensures key == Up || key == Char('k') ==> r == PreviousRepo(app)
    ensures key == Char('/') ==> r == EnterSearchMode(app)
    ensures key !in {Down, Char('j'), Up, Char('k'), Char('/')} ==> r == app
  {
    match key
    case Down => NextRepo(app)
    case Char('j') => NextRepo(app)
    case Up => PreviousRepo(app)
    case Char('k') => PreviousRepo(app)
    case Char('/') => EnterSearchMode(app)
    case _ => app
  }

  /** The fall-through handler of the detail screen: '/' opens the search. */
  function HandleIssueListKeys(app: App, key: KeyCode): (r: App)
    ensures key == Char('/') ==> r == EnterSearchMode(app)
    ensures key != Char('/') ==> r == app
  {
    match key
    case Char('/') => EnterSearchMode(app)
    case _ => app
  }

  /** The detail screen. `toggleDetail` stands for `toggle_detail_mode`, whose
      definition is not part of this model. */
  function HandleRepoDetailKeys(app: App, key: KeyCode, toggleDetail: App -> App): (r: App)
    ensures key == Down || key == Char('j') ==> r == NextRepo(app)
    ensures key == Up || key == Char('k') ==> r == PreviousRepo(app)
    ensures key == Esc ==> r == BackToList(app)
    ensures key == Tab ==> r == toggleDetail(app)
    ensures key == Char('/') ==> r == EnterSearchMode(app)
    ensures key !in {Down, Char('j'), Up, Char('k'), Esc, Tab, Char('/')} ==> r == app
  {
    match key
    case Down => NextRepo(app)
    case Char('j') => NextRepo(app)
    case Up => PreviousRepo(app)
    case Char('k') => PreviousRepo(app)
    case Esc => BackToList(app)
    case Tab => toggleDetail(app)
    case _ => HandleIssueListKeys(app, key)
  }

  /** The search prompt: characters are typed, Backspace deletes, Esc leaves. */
  function HandleSearchKeys(app: App, key: KeyCode): (r: App)
    ensures key.Char? ==> r == app.(searchInput := app.searchInput + [key.c])
    ensures key == Backspace ==> r == app.(searchInput := r.searchInput)
    ensures key == Backspace && |app.searchInput| > 0 ==>
      r.searchInput + [app.searchInput[|app.searchInput| - 1]] == app.searchInput
    ensures key == Backspace && |app.searchInput| == 0 ==> r == app
    ensures key == Esc ==> r == BackToList(app)
    ensures !key.Char? && key != Backspace && key != Esc ==> r == app
  {
    match key
    case Char(c) => app.(searchInput := app.searchInput + [c])
    case Backspace => app.(searchInput := Pop(app.searchInput))
    case Esc => BackToList(app)
    case _ => app
  }

  /** Routes one key. 'q' quits from every mode, before the mode is looked at.
      `searched` is the outcome the search call would give (used only by Enter in
      the search prompt). */
  function HandleKeyEvent(app: App, key: KeyCode, searched: Fetched<seq<Repo>>, toggleDetail: App -> App): (r: Handled)
    ensures r.quit <==> key == Char('q')
    ensures key == Char('q') ==> r.app == app
    ensures key != Char('q') && app.mode == RepoList ==>
      r.app == (if key == Enter then SelectCurrentRepo(app) else HandleRepoListKeys(app, key))
    ensures key != Char('q') && app.mode == RepoDetail ==>
      r.app == HandleRepoDetailKeys(app, key, toggleDetail)
    ensures key != Char('q') && app.mode == Search ==>
      r.app == (if key == Enter then SearchRepositories(app, searched) else HandleSearchKeys(app, key))
    ensures key != Char('q') && app.mode == IssuePopUp ==> r.app == HandleIssuePopupKeys(app, key)
  {
    if key == Char('q') then Handled(app, true)
    else
      var next := match app.mode
        case RepoList => if key == Enter then SelectCurrentRepo(app) else HandleRepoListKeys(app, key)
        case RepoDetail => HandleRepoDetailKeys(app, key, toggleDetail)
        case Search => if key == Enter then SearchRepositories(app, searched) else HandleSearchKeys(app, key)
        case IssuePopUp => HandleIssuePopupKeys(app, key);
      Handled(next, false)
  }

  /** In the search prompt 'q' cannot be typed: it quits instead of being appended. */
  lemma QuitWinsOverTyping(app: App, searched: Fetched<seq<Repo>>, toggleDetail: App -> App)
    requires app.mode == Search
    ensures HandleKeyEvent(app, Char('q'), searched, toggleDetail) == Handled(app, true)
    ensures HandleSearchKeys(app, Char('q')).searchInput == app.searchInput + ['q']
  {
  }

  /** Every printable key except 'q' typed in the search prompt lands, exactly, at
      the end of the input; nothing else of the session changes. */
  lemma TypingAppends(app: App, c: char, searched: Fetched<seq<Repo>>, toggleDetail: App -> App)
    requires app.mode == Search && c != 'q'
    ensures HandleKeyEvent(app, Char(c), searched, toggleDetail)
         == Handled(app.(searchInput := app.searchInput + [c]), false)
  {
  }

  /** Typing a character and then Backspace restores the search prompt. */
  lemma TypeThenBackspace(app: App, c: char, searched: Fetched<seq<Repo>>, toggleDetail: App -> App)
    requires app.mode == Search && c != 'q'
    ensures HandleKeyEvent(HandleKeyEvent(app, Char(c), searched, toggleDetail).app, Backspace, searched, toggleDetail)
         == Handled(app, false)
  {
    var typed := app.searchInput + [c];
    assert typed[..|typed| - 1] == app.searchInput;
  }

  /** Enter in the search prompt does exactly what `search_repositories` does. */
  lemma SearchEnterDelegates(app: App, searched: Fetched<seq<Repo>>, toggleDetail: App -> App)
    requires app.mode == Search && app.searchInput != []
    ensures HandleKeyEvent(app, Enter, searched, toggleDetail).app.mode == RepoList
    ensures searched.Ok? ==> HandleKeyEvent(app, Enter, searched, toggleDetail).app.repos == searched.value
  {
  }

  /** The popup reacts to Esc only. */
  lemma PopupIgnoresAllButEsc(app: App, key: KeyCode, searched: Fetched<seq<Repo>>, toggleDetail: App -> App)
    requires app.mode == IssuePopUp && key != Esc && key != Char('q')
    ensures HandleKeyEvent(app, key, searched, toggleDetail) == Handled(app, false)
  {
  }

  /** Keys that move the cursor in the list never leave the list. */
  lemma ListNavigationStaysInList(app: App, key: KeyCode, searched: Fetched<seq<Repo>>, toggleDetail: App -> App)
    requires app.mode == RepoList && key in {Up, Down, Char('j'), Char('k')}
    ensures HandleKeyEvent(app, key, searched, toggleDetail).app.mode == RepoList
    ensures HandleKeyEvent(app, key, searched, toggleDetail).app.repos == app.repos
  {
  }

  /** Routing a key keeps the cursor valid, provided the detail toggle does. */
  lemma HandleKeyEventPreservesCursorValid(app: App, key: KeyCode, searched: Fetched<seq<Repo>>, toggleDetail: App -> App)
    requires CursorValid(app)
    requires forall a :: CursorValid(a) ==> CursorValid(toggleDetail(a))
    ensures CursorValid(HandleKeyEvent(app, key, searched, toggleDetail).app)
  {
  }

  /** A caller that routes `keys` in order until one returns the quit flag, and the
      session it is left with. `outcomes[i]` is what the search call would give if
      `keys[i]` triggers one, so every search made along the way can come out
      differently. */
  function Drive(app: App, keys: seq<KeyCode>, outcomes: seq<Fetched<seq<Repo>>>, toggleDetail: App -> App): (r: App)
    requires |outcomes| == |keys|
    ensures |keys| == 0 ==> r == app
    ensures |keys| > 0 && keys[0] == Char('q') ==> r == app
    decreases |keys|
  {
    if |keys| == 0 then app
    else
      var h := HandleKeyEvent(app, keys[0], outcomes[0], toggleDetail);
      if h.quit then h.app else Drive(h.app, keys[1..], outcomes[1..], toggleDetail)
  }

  /** Keys after a 'q' are never routed: the session is the one the keys before it
      left. */
  lemma {:induction false} DriveStopsAtQuit(app: App, keys: seq<KeyCode>, rest: seq<KeyCode>,
                                            outcomes: seq<Fetched<seq<Repo>>>, more: seq<Fetched<seq<Repo>>>,
                                            toggleDetail: App -> App)
    requires |outcomes| == |keys| + 1 && |more| == |rest|
    requires Char('q') !in keys
    ensures Drive(app, keys + [Char('q')] + rest, outcomes + more, toggleDetail)
         == Drive(app, keys + [Char('q')], outcomes, toggleDetail)
    decreases |keys|
  {
    var ks := keys + [Char('q')] + rest;
    var os := outcomes + more;
    if |keys| > 0 {
      var h := HandleKeyEvent(app, keys[0], outcomes[0], toggleDetail);
      assert ks[0] == keys[0] && os[0] == outcomes[0];
      assert ks[1..] == keys[1..] + [Char('q')] + rest;
      assert os[1..] == outcomes[1..] + more;
      assert (keys + [Char('q')])[1..] == keys[1..] + [Char('q')];
      assert keys[0] != Char('q');
      DriveStopsAtQuit(h.app, keys[1..], rest, outcomes[1..], more, toggleDetail);
    } else {
      assert ks[0] == Char('q');
      assert (keys + [Char('q')])[0] == Char('q');
    }
  }

  /** A session driven by any sequence of keys, whatever each search returns, keeps a
      valid cursor. */
  lemma {:induction false} DrivePreservesCursorValid(app: App, keys: seq<KeyCode>, outcomes: seq<Fetched<seq<Repo>>>,
                                                     toggleDetail: App -> App)
    requires CursorValid(app) && |outcomes| == |keys|
    requires forall a :: CursorValid(a) ==> CursorValid(toggleDetail(a))
    ensures CursorValid(Drive(app, keys, outcomes, toggleDetail))
    decreases |keys|
  {
    if |keys| > 0 {
      var h := HandleKeyEvent(app, keys[0], outcomes[0], toggleDetail);
      HandleKeyEventPreservesCursorValid(app, keys[0], outcomes[0], toggleDetail);
      if !h.quit {
        DrivePreservesCursorValid(h.app, keys[1..], outcomes[1..], toggleDetail);
      }
    }
  }
}
