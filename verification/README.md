# github-tui-explorer, modelled in Dafny

A model of the core of a terminal dashboard for browsing a GitHub account's
repositories. The model has four parts:

- **The session state machine** (`src/app.rs`), in module `AppState`. The `App`
  session is an immutable record. Its `table_state` cursor is an `Option<nat>`.
  Every method becomes a pure transition. The async loaders take the outcome of
  their network call as a parameter.
- **The key router** (`src/events.rs`), in module `Events`. It maps a mode and a
  key code to one transition, plus a quit flag.
- **The fetch pipeline** (`src/github.rs`), in module `Github`. The HTTP client is
  replaced by a server oracle, a function from the `Request` sent to the decoded
  response or an error text. The pagination loop of `fetch_repos` is a method with
  a request budget (`fuel`). The URLs are built exactly as the source builds them.
- **The label-colour parser** `hex_to_color` (`src/utils.rs`), in module `Utils`.

Modules `Wrappers` (Option/Result) and `Models` (the `Repo`, `Issue`, `PR` and
`Label` records of `src/models.rs`) hold shared types.

Central invariant: `AppState.CursorValid` says that whenever `repos` is non-empty,
the cursor is `Some(i)` with `i < |repos|`. Every transition keeps it, and so does
every key routed by `Events.HandleKeyEvent`. For the router this assumes only that
the uninterpreted detail toggle keeps it too.

Behaviour of the code worth knowing:

- `previous_repo` maps a `None` cursor to 0.
- A successful load or search that returns an empty list leaves the cursor where it
  was. Nothing ever sets the cursor to `None`
  (`AppState.ReachableCursorPresentAndValid`).
- 'q' quits from every mode, the search prompt included, so a search query cannot
  contain 'q' (`Events.QuitWinsOverTyping`).
- Enter on the list only calls `select_current_repo`. No issue or pull-request
  fetch is made, and Enter on an empty list opens the detail screen with no
  repository.
- `previous_repo` keeps the cursor valid only when it was valid before. A stale
  index `i >= |repos|`, `i > 0`, moves to `i - 1`, which may still be out of range.

## Model

| member | source | states |
|---|---|---|
| AppState.New | src/app.rs:43-58 | start-up session: list mode, Idle, no repos, empty input, no selection, scroll 0, cursor `Some(0)` although the list is empty; the cursor invariant holds |
| AppState.NextRepo | src/app.rs:62-77 | no-op on an empty list; otherwise only the cursor changes, to `i+1`, wrapping from the last row to 0, `None` to 0; the result is always a valid cursor |
| AppState.PreviousRepo | src/app.rs:79-94 | no-op on an empty list; otherwise only the cursor changes: 0 wraps to the last row, `i>0` goes to `i-1`, `None` goes to 0; keeps a valid cursor valid |
| Wrappers.Get | src/app.rs:98 | `repos.get(i).cloned()`: an element exactly when the index is in range, and then the element at that index |
| AppState.SelectCurrentRepo | src/app.rs:96-102 | with a cursor: opens RepoDetail, scroll 0, snapshot is the row under the cursor exactly when the index is in range, else none; repos and cursor untouched; without a cursor nothing changes |
| AppState.BackToList | src/app.rs:104-107 | only mode (to RepoList) and the selected repository (to none) change |
| AppState.EnterSearchMode | src/app.rs:109-112 | only mode (to Search) and the search input (cleared) change |
| AppState.ApplyFetchedRepos | src/app.rs:118-128 | Ok replaces repos, status Success, cursor `Some(0)` if the list is non-empty else unchanged; Err keeps repos and cursor, status `Error(msg)`; a successful load always leaves a valid cursor |
| AppState.LoadUserRepos | src/app.rs:114-129 | the fetch-result rules above, and the status never stays Loading; no other field changes |
| AppState.SearchRepositories | src/app.rs:131-152 | empty input changes nothing at all; otherwise ends in RepoList whatever the outcome: Ok replaces repos with status Success and puts the cursor on row 0 when there are results, leaving it untouched when there are none; Err keeps repos and cursor with status `Error(msg)` |
| AppState.LoadRepoDetails | src/app.rs:154-167 | Ok replaces the selected repository, status Success; Err keeps it, status `Error(msg)`; nothing else changes |
| AppState.NextThenPrevious | src/app.rs:62-94 | for a valid cursor, next then previous restores the whole session |
| AppState.PreviousThenNext | src/app.rs:62-94 | for a valid cursor, previous then next restores the whole session |
| AppState.SelectOnEmptyListOpensEmptyDetail | src/app.rs:96-102 | selecting on an empty list still enters RepoDetail, with no repository |
| AppState.StepPreservesCursorValid | src/app.rs:62-167 | every session operation keeps the cursor invariant |
| AppState.StepKeepsCursor | src/app.rs:62-167 | no session operation clears the cursor |
| AppState.RunPreservesCursorValid | src/app.rs:62-167 | the invariant holds after any sequence of operations |
| AppState.RunKeepsCursor | src/app.rs:62-167 | a present cursor stays present over any sequence of operations |
| AppState.ReachableCursorPresentAndValid | src/app.rs:43-167 | every session reachable from start-up has a present, valid cursor |
| Events.Pop | src/events.rs:71-73 | Backspace's `String::pop`: drops exactly the last character, empty stays empty |
| Events.HandleIssuePopupKeys | src/events.rs:31-36 | Esc goes back to the list; every other key leaves the session unchanged |
| Events.HandleRepoListKeys | src/events.rs:38-45 | Down/'j' next, Up/'k' previous, '/' search; every other key is a no-op |
| Events.HandleIssueListKeys | src/events.rs:47-52 | '/' enters search; everything else is a no-op |
| Events.HandleRepoDetailKeys | src/events.rs:54-66 | Down/'j' next, Up/'k' previous, Esc back, Tab the detail toggle, '/' search through the fall-through; all else no-op |
| Events.HandleSearchKeys | src/events.rs:68-77 | a character is appended exactly; Backspace drops the last character and is a no-op on empty input; Esc goes back; all else no-op |
| Events.HandleKeyEvent | src/events.rs:4-29 | quit flag is true exactly for 'q', which changes nothing; otherwise dispatch by mode, with Enter going to select (list) or search (search prompt) |
| Events.QuitWinsOverTyping | src/events.rs:4-7 | in the search prompt 'q' quits and is not typed, although the search handler alone would append it |
| Events.TypingAppends | src/events.rs:18-22 | in the search prompt any other character lands at the end of the input and nothing else changes |
| Events.TypeThenBackspace | src/events.rs:68-73 | typing a character and then Backspace restores the session |
| Events.SearchEnterDelegates | src/events.rs:18-21 | Enter with a non-empty query ends in RepoList with the search results |
| Events.PopupIgnoresAllButEsc | src/events.rs:25-36 | in the popup every key other than Esc and 'q' leaves the session unchanged |
| Events.ListNavigationStaysInList | src/events.rs:10-16 | moving keys in the list keep the mode and the repositories |
| Events.HandleKeyEventPreservesCursorValid | src/events.rs:4-77 | routing any key keeps the cursor invariant, given a toggle that keeps it |
| Events.Drive | src/events.rs:4-29 | a caller routing keys one by one until one returns the quit flag, each search with its own outcome; no keys, or a first key 'q', leave the session as it was |
| Events.DriveStopsAtQuit | src/events.rs:4-7 | 'q' returns true and the caller stops: whatever keys follow the first 'q' are never routed |
| Events.DrivePreservesCursorValid | src/events.rs:4-29 | the invariant holds after any sequence of keys, whatever each search along the way returns |
| Github.Get | src/github.rs:12-30 | every request carries the client's user agent (line 13) and the `Accept` header (set at lines 30, 75, 93 and 109), without authentication |
| Github.WithBearer | src/github.rs:92 | `bearer_auth` adds the token as bearer authentication and leaves the URL and the other headers as they were |
| Github.Decimal | src/github.rs:23-26 | the page number is written as a non-empty run of decimal digits without leading zero |
| Github.DecimalRoundTrip | src/github.rs:23-26 | reading the written page number back gives the number |
| Github.ReposPageUrl | src/github.rs:23-26 | a listing URL is the user's listing prefix with 100 per page, followed by the page number in decimal |
| Github.PageOfUrlRoundTrip | src/github.rs:23-26 | a listing URL determines its page number |
| Github.PageRequestInjective | src/github.rs:20-42 | distinct page numbers give distinct requests |
| Github.SearchUrl | src/github.rs:67-71 | the encoded query can be read back from the search URL, between its prefix and the `per_page=100` suffix |
| Github.IssuesUrl | src/github.rs:89 | the repository can be read back from its issues URL, which asks for every state |
| Github.PullsUrl | src/github.rs:105 | the repository can be read back from its pull-requests URL, which asks for every state |
| Github.IssuesAndPullsUrlsDiffer | src/github.rs:86-115 | no issues URL equals any pull-requests URL |
| Github.FetchRepos | src/github.rs:17-46 | requests pages 1, 2, 3, ... in turn; stops at the first failed or empty page; an empty page gives the in-order concatenation of the earlier pages, a failure gives the error alone |
| Github.StopPageUnique | src/github.rs:37-39 | at most one page is the first that is not full |
| Github.FetchReposStopsAtFirstEmpty | src/github.rs:22-43 | pages 1..k full and page k+1 empty: exactly k+1 requests and the concatenation of pages 1..k |
| Github.FetchReposAbortsOnError | src/github.rs:28-35 | pages 1..k full and page k+1 failing: exactly k+1 requests, the error, and the collected pages dropped |
| Github.FetchReposDeterministic | src/github.rs:17-46 | the loop's contract determines its requests and outcome |
| Github.CollectedPrefix | src/github.rs:41 | the repositories from fewer pages are a prefix of those from more pages |
| Github.CollectedPages | src/github.rs:41 | page p's repositories sit whole and in order right after those of pages 1..p-1, each page adding at least one |
| Github.PaginationScenario | src/github.rs:17-46 | a 100-item page, a 1-item page, then an empty page: 3 requests and 101 repositories |
| Github.SearchRepos | src/github.rs:65-83 | one unauthenticated request, no pagination, whose URL carries exactly the encoded query; the envelope's items, or the error, are returned unchanged |
| Github.GetRepoIssues | src/github.rs:86-99 | one bearer-authenticated request whose URL names the repository's issues; the response is returned unchanged |
| Github.GetRepoPrs | src/github.rs:102-115 | one bearer-authenticated request whose URL names the repository's pull requests; the response is returned unchanged |
| Utils.TrimStartHashes | src/utils.rs:7 | the result is a suffix of the input, everything removed is '#', and the result does not start with '#' |
| Utils.HexDigit | src/utils.rs:10-12 | a digit value exists exactly for 0-9, a-f, A-F, and is below 16 |
| Utils.HexToColor | src/utils.rs:5-19 | total; white whenever the text after the leading '#'s is not 6 characters long |
| Utils.HexDigitsValue | src/utils.rs:10-12 | a string has a base-16 value exactly when every character is a hex digit; the value is below 16 to the power of its length |
| Utils.FromStrRadix16 | src/utils.rs:10-12 | `u8::from_str_radix`: accepted exactly when non-empty, not a lone '+', and the digits after an optional '+' are all hex and worth less than 256, giving that value; a leading '-' is refused; a two-character slice is accepted exactly when it is two hex digits or '+' and a hex digit, giving the byte they denote |
| Utils.SixCharsToColor | src/utils.rs:9-15 | six characters give a colour exactly when all three pairs parse, with the pairs' values as channels |
| Utils.HexToColorCharacterisation | src/utils.rs:5-19 | a colour exactly when the stripped text has 6 characters and every pair parses, else white; the channels are the pair values |
| Utils.SixHexDigits | src/utils.rs:9-14 | six hex digits, either case, give `Rgb(16*h0+h1, 16*h2+h3, 16*h4+h5)` |
| Utils.LeadingHashIgnored | src/utils.rs:7 | prefixing a '#' does not change the colour |
| Utils.LeadingHashesIgnored | src/utils.rs:7 | any run of leading '#'s is stripped away, so "##ff0000" parses like "ff0000" |
| Utils.Red | src/utils.rs:9-14 | "ff0000" is `Rgb(255, 0, 0)` |
| Utils.PlusSignAccepted | src/utils.rs:10-12 | "+f+f+f" is accepted as `Rgb(15, 15, 15)`, because the byte parser allows a leading '+' |
| Utils.Hex2Parses | src/utils.rs:10-12 | two hex digits written for a byte parse back to the byte |
| Utils.SixCharsRoundTrip | src/utils.rs:9-14 | three written bytes parse back to those channels |
| Utils.FormatRoundTrip | src/utils.rs:7-14 | any colour written as hex, in either case, behind any number of '#', parses back to itself |

## Left out

- Terminal setup, the render loop and the polling of `src/main.rs`, and all of `src/ui.rs`: I/O and drawing. `popup_area` in `src/utils.rs` is layout code for a library outside the model.
- The HTTP layer: building the client, sending, `error_for_status`, JSON decoding. All of it is the server oracle, whose error text stands for all three failure causes. A failure to build the client, which comes before any request, is not modelled.
- `urlencoding::encode` is a parameter (`encode`) of `Github.SearchRepos`. Percent-encoding is not modelled.
- `fetch_private_repos`, and `fetch_repo` as called by `load_repo_details`: the second is not defined in the source, so only the state update after it is modelled. Its `username`/`repo_name` arguments feed only that call, so they are dropped.
- `toggle_detail_mode`, `app.next()` and `app.previous()` have no definition in the source. The toggle is an uninterpreted `App -> App` parameter of the router. `next`/`previous` are read as `next_repo`/`previous_repo`. The `IssuePopUp` mode, which the router names, is added to `AppMode`.
- `select_current_repo().await` in `src/events.rs` awaits a synchronous method; it is modelled as the plain call.
- Async ordering: every path is sequential. The transient `Loading` status is set and then overwritten before any frame could show it.
- A key event is reduced to its key code. Key codes the router never names collapse into `Other`.
- Github.FetchRepos: the loop has no bound in the source. The model stops after `fuel` requests and then reports no outcome, having seen `fuel` full pages. The page counter is unbounded, whereas the source's counter is a 32-bit integer.
- Utils.HexToColor: requires ASCII text. The source measures and slices by bytes, and can panic on a slice that splits a multi-byte character.
- `should_quit`, `user` and `token` are carried in `App` but no modelled operation changes them. The quit decision is the router's returned flag.
