/** The calls into the repository-hosting API. The HTTP client is replaced by a
    server oracle: a function from the request sent to what came back (the decoded
    body, or the text of a transport, status or decoding failure). */
module Github {
  import opened Wrappers
  import opened Models

  const USER_AGENT: string := "gte/0.1"
  const ACCEPT: string := "application/vnd.github+json"

  /** What the client sends: the URL and the headers the source sets. */
  datatype Request = Request(url: string, userAgent: string, accept: string, bearer: Option<string>)

  /** A server: what each request gets back, already decoded. */
  type Server<T> = Request -> Result<T, string>

  /** The requests one call made, in order, and what the call returned. */
  datatype Exchange<T> = Exchange(requests: seq<Request>, result: Result<T, string>)

  /** The search endpoint's envelope. */
  datatype SearchResponse = SearchResponse(items: seq<Repo>)

  /** A GET with the client's fixed user agent and the `Accept` header. */
  function Get(url: string): (req: Request)
    ensures req.url == url && req.bearer == None
    ensures req.userAgent == USER_AGENT && req.accept == ACCEPT
  {
    Request(url, USER_AGENT, ACCEPT, None)
  }

  /** Bearer authentication on top of a request. */
  function WithBearer(req: Request, token: string): (r: Request)
    ensures r.bearer == Some(token)
    ensures r.url == req.url && r.userAgent == req.userAgent && r.accept == req.accept
  {
    req.(bearer := Some(token))
  }

  // ---------------------------------------------------------------------------
  // Decimal rendering of the page number (`format!("{}", page)`)

  predicate AllDigits(s: string) {
    forall i :: 0 <= i < |s| ==> '0' <= s[i] <= '9'
  }

  function DigitChar(d: nat): (c: char)
    requires d < 10
    ensures '0' <= c <= '9' && c as int - '0' as int == d
  {
    ('0' as int + d) as char
  }

  /** `n` in base ten, most significant digit first, without leading zeros. */
  function Decimal(n: nat): (s: string)
    ensures |s| > 0 && AllDigits(s)
    ensures |s| > 1 ==> s[0] != '0'
    decreases n
  {
    if n < 10 then [DigitChar(n)] else Decimal(n / 10) + [DigitChar(n % 10)]
  }

  /** The number a string of decimal digits denotes. */
  function DigitsValue(s: string): (n: nat)
    requires AllDigits(s)
    decreases |s|
  {
    if |s| == 0 then 0
    else DigitsValue(s[..|s| - 1]) * 10 + (s[|s| - 1] as int - '0' as int)
  }

  /** Reading back the rendered number gives the number. */
  lemma {:induction false} DecimalRoundTrip(n: nat)
    ensures DigitsValue(Decimal(n)) == n
    decreases n
  {
    if n >= 10 {
      var s := Decimal(n);
      assert s[..|s| - 1] == Decimal(n / 10);
      DecimalRoundTrip(n / 10);
    }
  }

  // ---------------------------------------------------------------------------
  // URLs

  /** Strips `prefix` and `suffix` off `s`, if it has them. */
  function Between(s: string, prefix: string, suffix: string): (r: Option<string>)
    ensures r.Some? ==> prefix + r.value + suffix == s
  {
    if |prefix| + |suffix| <= |s| && s[..|prefix|] == prefix && s[|s| - |suffix|..] == suffix
    then
      var mid := s[|prefix|..|s| - |suffix|];
      assert prefix + mid + suffix == s;
      Some(mid)
    else None
  }

  lemma BetweenRoundTrip(prefix: string, x: string, suffix: string)
    ensures Between(prefix + x + suffix, prefix, suffix) == Some(x)
  {
    var s := prefix + x + suffix;
    assert s[..|prefix|] == prefix;
    assert s[|s| - |suffix|..] == suffix;
    assert s[|prefix|..|s| - |suffix|] == x;
  }

  /** The part of a page URL before the page number. */
  function ReposPagePrefix(username: string): (prefix: string) {
    "https://api.github.com/users/" + username + "/repos?per_page=100&page="
  }

  /** One page of a user's repository listing (`fetch_repos`). */
  function ReposPageUrl(username: string, page: nat): (url: string)
    ensures |ReposPagePrefix(username)| < |url|
    ensures url[..|ReposPagePrefix(username)|] == ReposPagePrefix(username)
    ensures url[|ReposPagePrefix(username)|..] == Decimal(page)
  {
    ReposPagePrefix(username) + Decimal(page)
  }

  const SEARCH_PREFIX: string := "https://api.github.com/search/repositories?q="
  const SEARCH_SUFFIX: string := "&per_page=100"

  /** The search URL for an already percent-encoded query (`search_repos`). */
  function SearchUrl(encodedQuery: string): (url: string)
    ensures QueryOfSearchUrl(url) == Some(encodedQuery)
  {
    BetweenRoundTrip(SEARCH_PREFIX, encodedQuery, SEARCH_SUFFIX);
    SEARCH_PREFIX + encodedQuery + SEARCH_SUFFIX
  }

  /** The encoded query a search URL carries. */
  function QueryOfSearchUrl(url: string): (q: Option<string>) {
    Between(url, SEARCH_PREFIX, SEARCH_SUFFIX)
  }

  const REPOS_PREFIX: string := "https://api.github.com/repos/"
  const ISSUES_SUFFIX: string := "/issues?state=all"
  const PULLS_SUFFIX: string := "/pulls?state=all"

  /** All issues of a repository, open and closed (`get_repo_issues`). */
  function IssuesUrl(repo: string): (url: string)
    ensures RepoOfIssuesUrl(url) == Some(repo)
  {
    BetweenRoundTrip(REPOS_PREFIX, repo, ISSUES_SUFFIX);
    REPOS_PREFIX + repo + ISSUES_SUFFIX
  }

  /** All pull requests of a repository, open and closed (`get_repo_prs`). */
  function PullsUrl(repo: string): (url: string)
    ensures RepoOfPullsUrl(url) == Some(repo)
  {
    BetweenRoundTrip(REPOS_PREFIX, repo, PULLS_SUFFIX);
    REPOS_PREFIX + repo + PULLS_SUFFIX
  }

  /** The page number a listing URL asks for, if it is one of `username`'s. */
  function PageOfUrl(username: string, url: string): (page: Option<nat>)
  {
    match Between(url, ReposPagePrefix(username), "")
    case Some(d) => if |d| > 0 && AllDigits(d) then Some(DigitsValue(d)) else None
    case None => None
  }

  /** A listing URL names its page number, so distinct pages get distinct URLs. */
  lemma PageOfUrlRoundTrip(username: string, page: nat)
    ensures PageOfUrl(username, ReposPageUrl(username, page)) == Some(page)
  {
    var prefix := ReposPagePrefix(username);
    assert ReposPageUrl(username, page) == prefix + Decimal(page) + "";
    BetweenRoundTrip(prefix, Decimal(page), "");
    DecimalRoundTrip(page);
  }

  /** The repository an issues URL is about. */
  function RepoOfIssuesUrl(url: string): (repo: Option<string>) {
    Between(url, REPOS_PREFIX, ISSUES_SUFFIX)
  }

  /** The repository a pull-requests URL is about. */
  function RepoOfPullsUrl(url: string): (repo: Option<string>) {
    Between(url, REPOS_PREFIX, PULLS_SUFFIX)
  }

  /** No issues URL is a pull-requests URL, whatever the two repositories. */
  lemma IssuesAndPullsUrlsDiffer(repo1: string, repo2: string)
    ensures IssuesUrl(repo1) != PullsUrl(repo2)
  {
    var a := IssuesUrl(repo1);
    var b := PullsUrl(repo2);
    // "issues?state=all" and "pulls?state=all" differ in their 12th character from the end
    assert a[|a| - 12] == ISSUES_SUFFIX[|ISSUES_SUFFIX| - 12] == 'e';
    assert b[|b| - 12] == PULLS_SUFFIX[|PULLS_SUFFIX| - 12] == 'l';
  }

  // ---------------------------------------------------------------------------
  // fetch_repos: the pagination loop

  /** The request for one listing page. */
  function PageRequest(username: string, page: nat): (req: Request) {
    Get(ReposPageUrl(username, page))
  }

  lemma PageRequestInjective(username: string, p: nat, q: nat)
    requires PageRequest(username, p) == PageRequest(username, q)
    ensures p == q
  {
    PageOfUrlRoundTrip(username, p);
    PageOfUrlRoundTrip(username, q);
  }

  /** A page that lets the loop go on: fetched and not empty. */
  predicate FullPage(page: Result<seq<Repo>, string>) {
    page.Ok? && |page.value| > 0
  }

  /** Pages 1 to k are all full. */
  predicate FullPages(username: string, server: Server<seq<Repo>>, k: nat) {
    forall p :: 1 <= p <= k ==> FullPage(server(PageRequest(username, p)))
  }

  /** Pages 1 to k, concatenated in order. */
  function Collected(username: string, server: Server<seq<Repo>>, k: nat): (repos: seq<Repo>)
    requires FullPages(username, server, k)
  {
    if k == 0 then [] else Collected(username, server, k - 1) + server(PageRequest(username, k)).value
  }

  /** What the loop returns when page `last` ends it after collecting `collected`. */
  function StopOutcome(last: Result<seq<Repo>, string>, collected: seq<Repo>): (r: Result<seq<Repo>, string>) {
    match last
    case Err(e) => Err(e)
    case Ok(_) => Ok(collected)
  }

  /** `requests` asked for pages 1, 2, 3, ... in turn. */
  predicate RequestedPages(username: string, requests: seq<Request>) {
    forall i :: 0 <= i < |requests| ==> requests[i] == PageRequest(username, i + 1)
  }

  /** Asking for the next page keeps the requests in page order. */
  lemma RequestNextPage(username: string, requests: seq<Request>)
    requires RequestedPages(username, requests)
    ensures RequestedPages(username, requests + [PageRequest(username, |requests| + 1)])
  {
  }

  /** A further full page extends the full run and what it contributes. */
  lemma CollectNextPage(username: string, server: Server<seq<Repo>>, k: nat)
    requires FullPages(username, server, k) && FullPage(server(PageRequest(username, k + 1)))
    ensures FullPages(username, server, k + 1)
    ensures Collected(username, server, k + 1) == Collected(username, server, k) + server(PageRequest(username, k + 1)).value
  {
  }

  /** The observable contract of `fetch_repos` run with at most `fuel` requests:
      pages 1, 2, 3, ... are requested in turn; the run stops at the first page that
      fails or is empty; an empty page yields the concatenation of the pages before
      it, a failure yields the failure alone. `outcome` is `None` when `fuel`
      requests were not enough to reach such a page. */
  predicate FetchReposSpec(username: string, server: Server<seq<Repo>>, fuel: nat,
                           requests: seq<Request>, outcome: Option<Result<seq<Repo>, string>>)
  {
    && |requests| <= fuel
    && RequestedPages(username, requests)
    && (outcome.None? ==> |requests| == fuel && FullPages(username, server, fuel))
    && (outcome.Some? ==>
          && |requests| >= 1
          && FullPages(username, server, |requests| - 1)
          && !FullPage(server(PageRequest(username, |requests|)))
          && outcome.value == StopOutcome(server(PageRequest(username, |requests|)),
                                          Collected(username, server, |requests| - 1)))
  }

  /** The pagination loop of `fetch_repos`, stopped after `fuel` requests. */
  method FetchRepos(username: string, server: Server<seq<Repo>>, fuel: nat)
    returns (requests: seq<Request>, outcome: Option<Result<seq<Repo>, string>>)
    ensures FetchReposSpec(username, server, fuel, requests, outcome)
  {
    requests := [];
    var allRepos: seq<Repo> := [];
    var page: nat := 1;
    while |requests| < fuel
      invariant page == |requests| + 1 && |requests| <= fuel
      invariant RequestedPages(username, requests)
      invariant FullPages(username, server, |requests|)
      invariant allRepos == Collected(username, server, |requests|)
      decreases fuel - |requests|
    {
      var req := PageRequest(username, page);
      RequestNextPage(username, requests);
      requests := requests + [req];
      var pageRepos := server(req);
      match pageRepos {
        case Err(e) =>
          outcome := Some(Err(e));
          return;
        case Ok(repos) =>
          if |repos| == 0 {
            outcome := Some(Ok(allRepos));
            return;
          }
          CollectNextPage(username, server, page - 1);
          allRepos := allRepos + repos;
          page := page + 1;
      }
    }
    outcome := None;
  }

  /** At most one page can be the first one that is not full. */
  lemma StopPageUnique(username: string, server: Server<seq<Repo>>, m: nat, n: nat)
    requires 1 <= m && FullPages(username, server, m - 1) && !FullPage(server(PageRequest(username, m)))
    requires 1 <= n && FullPages(username, server, n - 1) && !FullPage(server(PageRequest(username, n)))
    ensures m == n
  {
  }

  /** If pages 1..k are full and page k+1 is empty, exactly k+1 requests are made and
      the result is pages 1..k in order. */
  lemma {:induction false} FetchReposStopsAtFirstEmpty(username: string, server: Server<seq<Repo>>, fuel: nat, k: nat,
                                     requests: seq<Request>, outcome: Option<Result<seq<Repo>, string>>)
    requires FetchReposSpec(username, server, fuel, requests, outcome)
    requires FullPages(username, server, k) && server(PageRequest(username, k + 1)) == Ok([])
    requires k < fuel
    ensures |requests| == k + 1
    ensures outcome == Some(Ok(Collected(username, server, k)))
  {
    StopPageUnique(username, server, |requests|, k + 1);
  }

  /** If pages 1..k are full and page k+1 fails, the run fails with that error after
      k+1 requests and the pages already collected are dropped. */
  lemma {:induction false} FetchReposAbortsOnError(username: string, server: Server<seq<Repo>>, fuel: nat, k: nat, e: string,
                                 requests: seq<Request>, outcome: Option<Result<seq<Repo>, string>>)
    requires FetchReposSpec(username, server, fuel, requests, outcome)
    requires FullPages(username, server, k) && server(PageRequest(username, k + 1)) == Err(e)
    requires k < fuel
    ensures |requests| == k + 1
    ensures outcome == Some(Err(e))
  {
    StopPageUnique(username, server, |requests|, k + 1);
  }

  /** The contract pins down the run: same inputs, same requests and outcome. */
  lemma {:induction false} FetchReposDeterministic(username: string, server: Server<seq<Repo>>, fuel: nat,
                                 requests1: seq<Request>, outcome1: Option<Result<seq<Repo>, string>>,
                                 requests2: seq<Request>, outcome2: Option<Result<seq<Repo>, string>>)
    requires FetchReposSpec(username, server, fuel, requests1, outcome1)
    requires FetchReposSpec(username, server, fuel, requests2, outcome2)
    ensures requests1 == requests2 && outcome1 == outcome2
  {
    if outcome1.Some? && outcome2.Some? {
      StopPageUnique(username, server, |requests1|, |requests2|);
    }
    assert |requests1| == |requests2|;
    assert forall i :: 0 <= i < |requests1| ==> requests1[i] == requests2[i];
  }

  /** Collecting fewer pages gives a prefix of collecting more. */
  lemma {:induction false} CollectedPrefix(username: string, server: Server<seq<Repo>>, k: nat, m: nat)
    requires FullPages(username, server, m) && k <= m
    ensures FullPages(username, server, k)
    ensures Collected(username, server, k) <= Collected(username, server, m)
    decreases m
  {
    if k < m {
      CollectedPrefix(username, server, k, m - 1);
    }
  }

  /** Page `p` sits in what pages 1..k contribute right after pages 1..p-1, whole and
      in order. */
  lemma CollectedPages(username: string, server: Server<seq<Repo>>, k: nat, p: nat)
    requires FullPages(username, server, k) && 1 <= p <= k
    ensures FullPages(username, server, p)
    ensures |Collected(username, server, p - 1)| < |Collected(username, server, p)| <= |Collected(username, server, k)|
    ensures Collected(username, server, k)[|Collected(username, server, p - 1)|..|Collected(username, server, p)|]
         == server(PageRequest(username, p)).value
  {
    CollectedPrefix(username, server, p, k);
    var all := Collected(username, server, k);
    var before := Collected(username, server, p - 1);
    var upto := Collected(username, server, p);
    assert upto == before + server(PageRequest(username, p)).value;
    assert all[..|upto|] == upto;
    assert all[|before|..|upto|] == upto[|before|..];
  }

  /** A server with a 100-item first page, a 1-item second page and nothing after. */
  function ScenarioServer(username: string, repo: Repo): (server: Server<seq<Repo>>) {
    req =>
      if req == PageRequest(username, 1) then Ok(seq(100, _ => repo))
      else if req == PageRequest(username, 2) then Ok([repo])
      else Ok([])
  }

  /** Against that server the loop makes exactly 3 requests and returns 101 items. */
  lemma PaginationScenario(username: string, repo: Repo, fuel: nat,
                           requests: seq<Request>, outcome: Option<Result<seq<Repo>, string>>)
    requires fuel >= 3
    requires FetchReposSpec(username, ScenarioServer(username, repo), fuel, requests, outcome)
    ensures |requests| == 3
    ensures outcome.Some? && outcome.value.Ok? && |outcome.value.value| == 101
  {
    var server := ScenarioServer(username, repo);
    if PageRequest(username, 2) == PageRequest(username, 1) { PageRequestInjective(username, 2, 1); }
    if PageRequest(username, 3) == PageRequest(username, 1) { PageRequestInjective(username, 3, 1); }
    if PageRequest(username, 3) == PageRequest(username, 2) { PageRequestInjective(username, 3, 2); }
    assert server(PageRequest(username, 1)) == Ok(seq(100, _ => repo));
    assert server(PageRequest(username, 2)) == Ok([repo]);
    assert server(PageRequest(username, 3)) == Ok([]);
    assert FullPages(username, server, 2);
    FetchReposStopsAtFirstEmpty(username, server, fuel, 2, requests, outcome);
    assert Collected(username, server, 2) == Collected(username, server, 1) + [repo];
    assert Collected(username, server, 1) == seq(100, _ => repo);
  }

  // ---------------------------------------------------------------------------
  // Single-request calls

  /** `search_repos`: one request for the encoded query, no pagination; the
      envelope's `items` come back as they are. `encode` is the percent-encoder. */
  function SearchRepos(query: string, encode: string -> string, server: Server<SearchResponse>): (r: Exchange<seq<Repo>>)
    ensures |r.requests| == 1 && r.requests[0].bearer == None
    ensures QueryOfSearchUrl(r.requests[0].url) == Some(encode(query))
    ensures server(r.requests[0]).Ok? ==> r.result == Ok(server(r.requests[0]).value.items)
    ensures server(r.requests[0]).Err? ==> r.result == Err(server(r.requests[0]).error)
  {
    var req := Get(SearchUrl(encode(query)));
    match server(req)
    case Ok(response) => Exchange([req], Ok(response.items))
    case Err(e) => Exchange([req], Err(e))
  }

  /** `get_repo_issues`: one authenticated request for all issues of `repo`. */
  function GetRepoIssues(repo: string, token: string, server: Server<seq<Issue>>): (r: Exchange<seq<Issue>>)
    ensures |r.requests| == 1 && r.requests[0].bearer == Some(token)
    ensures RepoOfIssuesUrl(r.requests[0].url) == Some(repo)
    ensures r.result == server(r.requests[0])
  {
    var req := WithBearer(Get(IssuesUrl(repo)), token);
    Exchange([req], server(req))
  }

  /** `get_repo_prs`: one authenticated request for all pull requests of `repo`. */
  function GetRepoPrs(repo: string, token: string, server: Server<seq<PR>>): (r: Exchange<seq<PR>>)
    ensures |r.requests| == 1 && r.requests[0].bearer == Some(token)
    ensures RepoOfPullsUrl(r.requests[0].url) == Some(repo)
    ensures r.result == server(r.requests[0])
  {
    var req := WithBearer(Get(PullsUrl(repo)), token);
    Exchange([req], server(req))
  }
}
