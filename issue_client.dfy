/**
 * `getIssuesFromRepo` (lib/github.ts): one repository's issues, queried with
 * the state and label filters, pull requests removed and every issue stamped
 * with the repository it came from. Every failure yields the empty list.
 */
module IssueClient {
  import opened Wrappers
  import opened Seqs
  import opened Text
  import opened UrlParams
  import opened GitHubTypes

  /** The `filters` argument: both fields optional. */
  datatype IssueFilters = IssueFilters(state: Option<string>, labels: Option<seq<string>>)

  /** `filters.state === "all" ? "all" : filters.state || "open"`. */
  function RequestedState(filters: IssueFilters): string
  {
    if filters.state == Some("all") then "all"
    else if filters.state.Some? && filters.state.value != "" then filters.state.value
    else "open"
  }

  /** The query string of the issues request, in the order the source builds it. */
  function IssueQuery(filters: IssueFilters): seq<Pair>
  {
    var base := [("state", RequestedState(filters)), ("per_page", "100"), ("sort", "updated"), ("direction", "desc")];
    if filters.labels.Some? && |filters.labels.value| > 0 then base + [("labels", Join(filters.labels.value, ","))] else base
  }

  /**
   * What the issues query asks for: the given state ("open" when it is
   * absent or empty; "all" passes through like any other value), a page of
   * 100, most recently updated first, and the comma-joined labels only when
   * some were given.
   */
  lemma IssueQueryFacts(filters: IssueFilters)
    ensures var q := IssueQuery(filters);
            && Lookup(q, "state") == Some(if filters.state.Some? && filters.state.value != "" then filters.state.value else "open")
            && Lookup(q, "per_page") == Some("100")
            && Lookup(q, "sort") == Some("updated")
            && Lookup(q, "direction") == Some("desc")
            && Lookup(q, "labels") ==
                 if filters.labels.Some? && |filters.labels.value| > 0 then Some(Join(filters.labels.value, ",")) else None
  {
    IssueQueryFixed(filters);
    IssueQueryLabels(filters);
  }

  lemma IssueQueryFixed(filters: IssueFilters)
    ensures Lookup(IssueQuery(filters), "state") == Some(RequestedState(filters))
    ensures Lookup(IssueQuery(filters), "per_page") == Some("100")
    ensures Lookup(IssueQuery(filters), "sort") == Some("updated")
    ensures Lookup(IssueQuery(filters), "direction") == Some("desc")
  {
    var q := IssueQuery(filters);
    assert q[0] == ("state", RequestedState(filters));
    LookupFirstAt(q, "state", 0);
    assert q[1] == ("per_page", "100");
    LookupFirstAt(q, "per_page", 1);
    assert q[2] == ("sort", "updated");
    LookupFirstAt(q, "sort", 2);
    assert q[3] == ("direction", "desc");
    LookupFirstAt(q, "direction", 3);
  }

  lemma IssueQueryLabels(filters: IssueFilters)
    ensures Lookup(IssueQuery(filters), "labels") ==
              if filters.labels.Some? && |filters.labels.value| > 0 then Some(Join(filters.labels.value, ",")) else None
  {
    var q := IssueQuery(filters);
    if |q| == 5 {
      LookupFirstAt(q, "labels", 4);
    } else {
      assert forall k :: 0 <= k < |q| ==> q[k].0 != "labels";
    }
  }

  /** `const [owner, repo] = repoFullName.split("/")`, accepted only when both are non-empty. */
  function OwnerAndRepo(repoFullName: string): (r: Option<(string, string)>)
    ensures r.Some? <==> |Split(repoFullName, '/')| >= 2 && Split(repoFullName, '/')[0] != "" && Split(repoFullName, '/')[1] != ""
    ensures r.Some? ==> r.value.0 != "" && r.value.1 != "" && '/' !in r.value.0 && '/' !in r.value.1
  {
    var parts := Split(repoFullName, '/');
    if |parts| >= 2 && parts[0] != "" && parts[1] != "" then Some((parts[0], parts[1])) else None
  }

  function IssuesPath(owner: string, repo: string): string
  {
    "/repos/" + owner + "/" + repo + "/issues"
  }

  /** The provenance record: the short name, the full name and its page on github.com. */
  function Provenance(repoFullName: string, repo: string): Repository
  {
    Repository(repo, repoFullName, "https://github.com/" + repoFullName)
  }

  /** The `!issue.pull_request` test. */
  function IsIssue(issue: Issue): bool
  {
    !issue.pullRequest
  }

  /** `{ ...issue, repository }` for every issue. */
  function Stamp(issues: seq<Issue>, repository: Repository): (r: seq<Issue>)
    ensures |r| == |issues|
    ensures forall i :: 0 <= i < |r| ==> r[i] == issues[i].(repository := Some(repository))
  {
    seq(|issues|, i requires 0 <= i < |issues| => issues[i].(repository := Some(repository)))
  }

  /**
   * What `getIssuesFromRepo` resolves to: nothing for a malformed name or a
   * failed request, otherwise the non-pull-request entries of the upstream
   * answer, each stamped with its repository.
   */
  function RepoIssues(repoFullName: string, filters: IssueFilters, upstream: Request -> Response<Issue>): (r: seq<Issue>)
    ensures OwnerAndRepo(repoFullName).None? ==> r == []
    ensures forall i :: 0 <= i < |r| ==> !r[i].pullRequest
    ensures forall i :: 0 <= i < |r| ==> r[i].repository.Some? && r[i].repository.value.fullName == repoFullName
  {
    match OwnerAndRepo(repoFullName)
    case None => []
    case Some((owner, repo)) =>
      match FetchGitHubApi(upstream(Request(IssuesPath(owner, repo), IssueQuery(filters))))
      case Err(_) => []
      case Ok(items) => Stamp(Filter(items, IsIssue), Provenance(repoFullName, repo))
  }

  /**
   * The answer of a well-formed repository name: empty for any failing
   * status, whatever its error class; otherwise every non-pull-request entry
   * of the upstream answer is there, stamped with the short name, the full
   * name and the github.com page, and nothing else is.
   */
  lemma RepoIssuesFromUpstream(repoFullName: string, filters: IssueFilters, upstream: Request -> Response<Issue>)
    requires OwnerAndRepo(repoFullName).Some?
    ensures var (owner, repo) := OwnerAndRepo(repoFullName).value;
            var response := upstream(Request(IssuesPath(owner, repo), IssueQuery(filters)));
            var r := RepoIssues(repoFullName, filters, upstream);
            && (!IsSuccess(response.status) ==> r == [])
            && (forall i :: 0 <= i < |r| ==> r[i].repository == Some(Provenance(repoFullName, repo)))
            && (IsSuccess(response.status) ==>
                  forall j :: 0 <= j < |response.payload| && !response.payload[j].pullRequest ==>
                    response.payload[j].(repository := Some(Provenance(repoFullName, repo))) in r)
            && (forall i :: 0 <= i < |r| ==>
                  exists j :: 0 <= j < |response.payload| && r[i] == response.payload[j].(repository := Some(Provenance(repoFullName, repo))))
  {
    var (owner, repo) := OwnerAndRepo(repoFullName).value;
    var response := upstream(Request(IssuesPath(owner, repo), IssueQuery(filters)));
    if IsSuccess(response.status) {
      StampedUpstream(response.payload, Provenance(repoFullName, repo));
    }
  }

  /** Stamping the non-pull-request entries loses none of them and invents none. */
  lemma StampedUpstream(items: seq<Issue>, repository: Repository)
    ensures var r := Stamp(Filter(items, IsIssue), repository);
            && (forall j :: 0 <= j < |items| && !items[j].pullRequest ==> items[j].(repository := Some(repository)) in r)
            && (forall i :: 0 <= i < |r| ==> exists j :: 0 <= j < |items| && r[i] == items[j].(repository := Some(repository)))
  {
    var kept := Filter(items, IsIssue);
    var r := Stamp(kept, repository);
    forall j | 0 <= j < |items| && !items[j].pullRequest
      ensures items[j].(repository := Some(repository)) in r
    {
      assert IsIssue(items[j]);
      var k :| 0 <= k < |kept| && kept[k] == items[j];
      assert r[k] == items[j].(repository := Some(repository));
    }
    forall i | 0 <= i < |r|
      ensures exists j :: 0 <= j < |items| && r[i] == items[j].(repository := Some(repository))
    {
      assert kept[i] in items;
      var j :| 0 <= j < |items| && items[j] == kept[i];
      assert r[i] == items[j].(repository := Some(repository));
    }
  }

  /**
   * `getIssuesFromRepo`: the query is built in a `URLSearchParams` object and
   * sent; any error (a malformed name, a failed request) is caught and turned
   * into the empty list.
   */
  method GetIssuesFromRepo(repoFullName: string, filters: IssueFilters, upstream: Request -> Response<Issue>)
    returns (issues: seq<Issue>)
    ensures issues == RepoIssues(repoFullName, filters, upstream)
  {
    var parts := Split(repoFullName, '/');
    var owner := parts[0];
    var repo := if |parts| >= 2 then parts[1] else "";
    if owner == "" || repo == "" {
      return [];
    }
    var params := new SearchParams([("state", RequestedState(filters)), ("per_page", "100"), ("sort", "updated"), ("direction", "desc")]);
    if filters.labels.Some? && |filters.labels.value| > 0 {
      params.Append("labels", Join(filters.labels.value, ","));
    }
    var path := IssuesPath(owner, repo);
    var response := upstream(Request(path, params.pairs));
    match FetchGitHubApi(response)
    case Err(_) =>
      issues := [];
    case Ok(items) =>
      var kept := Filter(items, IsIssue);
      issues := Stamp(kept, Provenance(repoFullName, repo));
  }
}
