/**
 * `getIssuesFromRepos` (lib/github.ts): parses the raw query-string fields,
 * keeps the well-formed `owner/repo` entries, asks each repository in turn,
 * concatenates the answers in repository order, sorts them most recently
 * updated first and applies the search and assignment filters.
 */
module Aggregator {
  import opened Wrappers
  import opened Seqs
  import opened Text
  import opened GitHubTypes
  import opened IssueClient
  import opened IssueSort

  /** The raw query-string fields; each may be missing. */
  datatype SearchParams = SearchParams(
    state: Option<string>,
    labels: Option<string>,
    repos: Option<string>,
    search: Option<string>,
    assignment: Option<string>)

  /**
   * `repos?.split(",").filter(Boolean) || GITHUB_REPOS`: the configured list
   * only when the field is missing. A present field always parses to an array,
   * and an empty array is truthy, so "" or "," selects no repository at all.
   */
  function RequestedRepos(params: SearchParams, configured: seq<string>): seq<string>
  {
    match params.repos
    case None => configured
    case Some(s) => ParseList(s, ',')
  }

  function RequestedLabels(params: SearchParams): seq<string>
  {
    match params.labels
    case None => []
    case Some(s) => ParseList(s, ',')
  }

  /** The `{ state, labels }` passed to every per-repository call. */
  function UpstreamFilters(params: SearchParams): IssueFilters
  {
    IssueFilters(Some(OrDefault(params.state, "open")), Some(RequestedLabels(params)))
  }

  /** The validation at lib/github.ts:146-153: exactly two non-empty `/`-separated parts. */
  function IsOwnerRepo(repo: string): bool
  {
    var parts := Split(repo, '/');
    |parts| == 2 && parts[0] != "" && parts[1] != ""
  }

  function ValidRepos(params: SearchParams, configured: seq<string>): (valid: seq<string>)
    ensures forall i :: 0 <= i < |valid| ==> IsOwnerRepo(valid[i]) && OwnerAndRepo(valid[i]).Some?
  {
    Filter(RequestedRepos(params, configured), IsOwnerRepo)
  }

  /** Dropping malformed entries treats each entry on its own: validation distributes over concatenation. */
  lemma ValidationIsPerEntry(a: seq<string>, b: seq<string>)
    ensures Filter(a + b, IsOwnerRepo) == Filter(a, IsOwnerRepo) + Filter(b, IsOwnerRepo)
  {
    FilterConcat(a, b, IsOwnerRepo);
  }

  /** A name without a slash is never a valid repository. */
  lemma NameWithoutSlashIsInvalid(repo: string)
    requires '/' !in repo
    ensures !IsOwnerRepo(repo)
  {
    SplitWithoutSeparator(repo, "", '/');
    assert repo + "" == repo;
  }

  /** Asking only for a name without a slash (and without a comma) gives no issue, whatever the upstream answers. */
  lemma MalformedRepoOnlyGivesNothing(repo: string, configured: seq<string>, upstream: Request -> Response<Issue>)
    requires repo != "" && '/' !in repo && ',' !in repo
    ensures Listing(SearchParams(None, None, Some(repo), None, None), configured, upstream) == []
  {
    var params := SearchParams(None, None, Some(repo), None, None);
    SplitWithoutSeparator(repo, "", ',');
    assert repo + "" == repo;
    assert Split(repo, ',') == [repo];
    FilterKeepsAll([repo], NonEmpty);
    assert RequestedRepos(params, configured) == [repo];
    NameWithoutSlashIsInvalid(repo);
    FilterDropsAll([repo], IsOwnerRepo);
    ListingFacts(params, configured, upstream);
  }

  /** What `getIssuesFromRepo` resolves to, as a function of the repository name. */
  function RepoAnswer(filters: IssueFilters, upstream: Request -> Response<Issue>): string -> seq<Issue>
  {
    (repo: string) => RepoIssues(repo, filters, upstream)
  }

  /** The fulfilled results of the per-repository calls, concatenated in repository order. */
  function Merged(repos: seq<string>, filters: IssueFilters, upstream: Request -> Response<Issue>): seq<Issue>
  {
    FlatMap(repos, RepoAnswer(filters, upstream))
  }

  /** Asking `a` and then `b` gives the answers of `a` followed by those of `b`. */
  lemma MergedConcat(a: seq<string>, b: seq<string>, filters: IssueFilters, upstream: Request -> Response<Issue>)
    ensures Merged(a + b, filters, upstream) == Merged(a, filters, upstream) + Merged(b, filters, upstream)
  {
    FlatMapConcat(a, b, RepoAnswer(filters, upstream));
  }

  /** No pull request gets through and every issue names one of the repositories asked. */
  lemma {:induction false} MergedProvenance(repos: seq<string>, filters: IssueFilters, upstream: Request -> Response<Issue>)
    ensures var r := Merged(repos, filters, upstream);
            forall i :: 0 <= i < |r| ==>
              && !r[i].pullRequest
              && r[i].repository.Some?
              && r[i].repository.value.fullName in repos
  {
    if repos != [] {
      var init, last := repos[..|repos| - 1], repos[|repos| - 1];
      MergedProvenance(init, filters, upstream);
      var front: seq<Issue> := Merged(init, filters, upstream);
      var back: seq<Issue> := RepoIssues(last, filters, upstream);
      assert Merged(repos, filters, upstream) == front + back;
      forall i | 0 <= i < |front| + |back|
        ensures !(front + back)[i].pullRequest
        ensures (front + back)[i].repository.Some? && (front + back)[i].repository.value.fullName in repos
      {
        if i < |front| {
          assert front[i].repository.value.fullName in init;
        } else {
          assert (front + back)[i] == back[i - |front|];
        }
      }
    }
  }

  /**
   * A repository that yields nothing (a failed request, a malformed name)
   * removes only its own contribution: the others come back as if it had
   * not been asked.
   */
  lemma FailedRepoIsIsolated(a: seq<string>, repo: string, b: seq<string>, filters: IssueFilters, upstream: Request -> Response<Issue>)
    requires RepoIssues(repo, filters, upstream) == []
    ensures Merged(a + [repo] + b, filters, upstream) == Merged(a + b, filters, upstream)
  {
    FlatMapSkipsEmpty(a, repo, b, RepoAnswer(filters, upstream));
  }

  /** Some label's lower-cased name contains `term`. */
  function LabelMatches(labels: seq<Label>, term: string): bool
  {
    exists k :: 0 <= k < |labels| && Contains(Lower(labels[k].name), term)
  }

  /**
   * The search test for an already lower-cased term: the lower-cased title,
   * some label name, the assignee's login (when there is one) or the
   * author's login contains it.
   */
  function MatchesSearch(issue: Issue, term: string): bool
  {
    || Contains(Lower(issue.title), term)
    || LabelMatches(issue.labels, term)
    || (issue.assignee.Some? && Contains(Lower(issue.assignee.value.login), term))
    || Contains(Lower(issue.user.login), term)
  }

  function Matching(term: string): Issue -> bool
  {
    (issue: Issue) => MatchesSearch(issue, term)
  }

  function IsAssigned(issue: Issue): bool
  {
    issue.assignee.Some?
  }

  function IsUnassigned(issue: Issue): bool
  {
    issue.assignee.None?
  }

  /** The search filter is active only for a present, non-empty term. */
  predicate SearchActive(search: Option<string>)
  {
    search.Some? && search.value != ""
  }

  /** Whether `issue` survives the search filter. */
  predicate PassesSearch(issue: Issue, search: Option<string>)
  {
    !SearchActive(search) || MatchesSearch(issue, Lower(search.value))
  }

  /** Whether `issue` survives the assignment filter: only "assigned" and "unassigned" filter. */
  predicate PassesAssignment(issue: Issue, assignment: string)
  {
    && (assignment == "assigned" ==> issue.assignee.Some?)
    && (assignment == "unassigned" ==> issue.assignee.None?)
  }

  function SearchFiltered(issues: seq<Issue>, search: Option<string>): (r: seq<Issue>)
    ensures forall x :: x in r <==> x in issues && PassesSearch(x, search)
  {
    if SearchActive(search) then Filter(issues, Matching(Lower(search.value))) else issues
  }

  function AssignmentFiltered(issues: seq<Issue>, assignment: string): (r: seq<Issue>)
    ensures forall x :: x in r <==> x in issues && PassesAssignment(x, assignment)
  {
    if assignment != "" && assignment != "all" then
      if assignment == "assigned" then Filter(issues, IsAssigned)
      else if assignment == "unassigned" then Filter(issues, IsUnassigned)
      else issues
    else issues
  }

  function SearchPass(search: Option<string>): Issue -> bool
  {
    (issue: Issue) => PassesSearch(issue, search)
  }

  function AssignmentPass(assignment: string): Issue -> bool
  {
    (issue: Issue) => PassesAssignment(issue, assignment)
  }

  /** Whether `issue` survives both post-sort filters. */
  function Passes(search: Option<string>, assignment: string): Issue -> bool
  {
    (issue: Issue) => PassesSearch(issue, search) && PassesAssignment(issue, assignment)
  }

  /** The search filter is one `filter` by `PassesSearch`, active or not. */
  lemma SearchFilteredIsFilter(issues: seq<Issue>, search: Option<string>)
    ensures SearchFiltered(issues, search) == Filter(issues, SearchPass(search))
  {
    if SearchActive(search) {
      FilterAgree(issues, Matching(Lower(search.value)), SearchPass(search));
    } else {
      FilterKeepsAll(issues, SearchPass(search));
    }
  }

  /** The assignment filter is one `filter` by `PassesAssignment`, whatever the value. */
  lemma AssignmentFilteredIsFilter(issues: seq<Issue>, assignment: string)
    ensures AssignmentFiltered(issues, assignment) == Filter(issues, AssignmentPass(assignment))
  {
    if assignment == "assigned" {
      FilterAgree(issues, IsAssigned, AssignmentPass(assignment));
    } else if assignment == "unassigned" {
      FilterAgree(issues, IsUnassigned, AssignmentPass(assignment));
    } else {
      FilterKeepsAll(issues, AssignmentPass(assignment));
    }
  }

  /**
   * The sort followed by the two filters is the sorted list narrowed once by
   * both tests, and holds each surviving merged issue as many times as the
   * merged list does (a repository asked twice gives its issues twice).
   */
  lemma PipelineIsOneFilter(merged: seq<Issue>, search: Option<string>, assignment: string)
    ensures var issues := AssignmentFiltered(SearchFiltered(SortByUpdated(merged), search), assignment);
            && issues == Filter(SortByUpdated(merged), Passes(search, assignment))
            && multiset(issues) == multiset(Filter(merged, Passes(search, assignment)))
  {
    var byUpdate := SortByUpdated(merged);
    SearchFilteredIsFilter(byUpdate, search);
    AssignmentFilteredIsFilter(SearchFiltered(byUpdate, search), assignment);
    FilterTwice(byUpdate, SearchPass(search), AssignmentPass(assignment), Passes(search, assignment));
    SortByUpdatedSorted(merged);
    FilterPermutation(byUpdate, merged, Passes(search, assignment));
  }

  /** Both post-sort filters keep the survivors in sorted order. */
  lemma FiltersPreserveOrder(issues: seq<Issue>, search: Option<string>, assignment: string)
    ensures IsSubsequence(AssignmentFiltered(SearchFiltered(issues, search), assignment), issues)
  {
    var s := SearchFiltered(issues, search);
    if SearchActive(search) {
      FilterIsSubsequence(issues, Matching(Lower(search.value)));
    } else {
      SubsequenceOfSelf(issues);
    }
    var a := AssignmentFiltered(s, assignment);
    if assignment == "assigned" {
      FilterIsSubsequence(s, IsAssigned);
    } else if assignment == "unassigned" {
      FilterIsSubsequence(s, IsUnassigned);
    } else {
      SubsequenceOfSelf(s);
    }
    SubsequenceTransitive(a, s, issues);
  }

  /** A subsequence of a most-recent-first list is most-recent-first. */
  lemma {:induction false} SubsequenceKeepsSorted(a: seq<Issue>, b: seq<Issue>)
    requires IsSubsequence(a, b) && SortedByUpdated(b)
    ensures SortedByUpdated(a)
    ensures forall i :: 0 <= i < |a| ==> a[i] in b
    decreases |b|
  {
    if a == [] {
    } else if a[0] == b[0] && IsSubsequence(a[1..], b[1..]) {
      SubsequenceKeepsSorted(a[1..], b[1..]);
      forall j | 0 < j < |a|
        ensures a[0].updatedAt >= a[j].updatedAt
      {
        assert a[1..][j - 1] in b[1..];
      }
    } else {
      SubsequenceKeepsSorted(a, b[1..]);
    }
  }

  /** After the sort and the two filters the survivors keep the sorted order. */
  lemma PipelineOrder(merged: seq<Issue>, search: Option<string>, assignment: string)
    ensures var issues := AssignmentFiltered(SearchFiltered(SortByUpdated(merged), search), assignment);
            IsSubsequence(issues, SortByUpdated(merged)) && SortedByUpdated(issues)
  {
    var byUpdate := SortByUpdated(merged);
    SortByUpdatedSorted(merged);
    FiltersPreserveOrder(byUpdate, search, assignment);
    SubsequenceKeepsSorted(AssignmentFiltered(SearchFiltered(byUpdate, search), assignment), byUpdate);
  }

  /** The survivors are exactly the merged issues that pass both filters. */
  lemma PipelineMembers(merged: seq<Issue>, search: Option<string>, assignment: string)
    ensures var issues := AssignmentFiltered(SearchFiltered(SortByUpdated(merged), search), assignment);
            forall x :: x in issues <==> x in merged && PassesSearch(x, search) && PassesAssignment(x, assignment)
  {
    SortByUpdatedSorted(merged);
    assert forall x :: x in SortByUpdated(merged) <==> x in merged by {
      forall x
        ensures x in SortByUpdated(merged) <==> x in merged
      {
        assert x in SortByUpdated(merged) <==> x in multiset(SortByUpdated(merged));
        assert x in merged <==> x in multiset(merged);
      }
    }
  }

  /**
   * The fan-out of `getIssuesFromRepos`: each repository is asked in turn
   * and its fulfilled result pushed onto the list.
   */
  method FetchAll(repos: seq<string>, filters: IssueFilters, upstream: Request -> Response<Issue>)
    returns (allIssues: seq<Issue>)
    ensures allIssues == Merged(repos, filters, upstream)
  {
    allIssues := [];
    var i := 0;
    while i < |repos|
      invariant 0 <= i <= |repos|
      invariant allIssues == Merged(repos[..i], filters, upstream)
    {
      var result := GetIssuesFromRepo(repos[i], filters, upstream);
      assert repos[..i + 1][..i] == repos[..i];
      allIssues := allIssues + result;
      i := i + 1;
    }
    assert repos[..i] == repos;
  }

  /**
   * What `getIssuesFromRepos` resolves to: the merged answers of the
   * well-formed repositories, most recently updated first, narrowed by the
   * search term and the assignment filter.
   */
  function Listing(params: SearchParams, configured: seq<string>, upstream: Request -> Response<Issue>): seq<Issue>
  {
    var merged := Merged(ValidRepos(params, configured), UpstreamFilters(params), upstream);
    AssignmentFiltered(SearchFiltered(SortByUpdated(merged), params.search), OrDefault(params.assignment, "all"))
  }

  /**
   * The listing is empty when no well-formed repository is asked (a present
   * but empty `repos` field does not fall back to the configured list); it
   * keeps the sorted order; it holds exactly the merged issues that pass both
   * filters; and every issue in it is a real issue of one of the repositories
   * asked.
   */
  lemma ListingFacts(params: SearchParams, configured: seq<string>, upstream: Request -> Response<Issue>)
    ensures ValidRepos(params, configured) == [] ==> Listing(params, configured, upstream) == []
    ensures params.repos.Some? && ParseList(params.repos.value, ',') == [] ==> Listing(params, configured, upstream) == []
    ensures var merged := Merged(ValidRepos(params, configured), UpstreamFilters(params), upstream);
            var issues := Listing(params, configured, upstream);
            && IsSubsequence(issues, SortByUpdated(merged))
            && SortedByUpdated(issues)
            && (forall x :: x in issues <==>
                  x in merged && PassesSearch(x, params.search) && PassesAssignment(x, OrDefault(params.assignment, "all")))
    ensures var issues := Listing(params, configured, upstream);
            forall i :: 0 <= i < |issues| ==>
              && !issues[i].pullRequest
              && issues[i].repository.Some?
              && issues[i].repository.value.fullName in ValidRepos(params, configured)
  {
    var valid := ValidRepos(params, configured);
    var filters := UpstreamFilters(params);
    var merged := Merged(valid, filters, upstream);
    var search, assignment := params.search, OrDefault(params.assignment, "all");
    PipelineOrder(merged, search, assignment);
    PipelineMembers(merged, search, assignment);
    MergedProvenance(valid, filters, upstream);
    var issues := Listing(params, configured, upstream);
    forall i | 0 <= i < |issues|
      ensures !issues[i].pullRequest
      ensures issues[i].repository.Some? && issues[i].repository.value.fullName in valid
    {
      assert issues[i] in merged;
    }
  }

  /**
   * The listing is the sorted merged list narrowed once by both filters, and
   * keeps every surviving merged issue exactly as often as it was merged.
   */
  lemma ListingIsOneFilter(params: SearchParams, configured: seq<string>, upstream: Request -> Response<Issue>)
    ensures var merged := Merged(ValidRepos(params, configured), UpstreamFilters(params), upstream);
            var passes := Passes(params.search, OrDefault(params.assignment, "all"));
            var issues := Listing(params, configured, upstream);
            && issues == Filter(SortByUpdated(merged), passes)
            && multiset(issues) == multiset(Filter(merged, passes))
  {
    var merged := Merged(ValidRepos(params, configured), UpstreamFilters(params), upstream);
    PipelineIsOneFilter(merged, params.search, OrDefault(params.assignment, "all"));
  }

  /**
   * `getIssuesFromRepos`. The per-repository calls are made one after the
   * other and their results pushed onto `allIssues`; the array is then sorted
   * in place and narrowed by the search and assignment filters.
   */
  method GetIssuesFromRepos(params: SearchParams, configured: seq<string>, upstream: Request -> Response<Issue>)
    returns (issues: seq<Issue>)
    ensures issues == Listing(params, configured, upstream)
  {
    var state := OrDefault(params.state, "open");
    var labels := RequestedLabels(params);
    var repos := RequestedRepos(params, configured);
    var search := params.search;
    var assignment := OrDefault(params.assignment, "all");

    var validRepos := Filter(repos, IsOwnerRepo);
    if |validRepos| == 0 {
      return [];
    }

    var filters := IssueFilters(Some(state), Some(labels));
    var allIssues := FetchAll(validRepos, filters, upstream);

    var sorted := new Issue[|allIssues|](k requires 0 <= k < |allIssues| => allIssues[k]);
    assert sorted[..] == allIssues;
    SortInPlace(sorted);
    var filteredIssues := sorted[..];

    if search.Some? && search.value != "" {
      var searchTerm := Lower(search.value);
      filteredIssues := Filter(filteredIssues, Matching(searchTerm));
    }

    if assignment != "" && assignment != "all" {
      if assignment == "assigned" {
        filteredIssues := Filter(filteredIssues, IsAssigned);
      } else if assignment == "unassigned" {
        filteredIssues := Filter(filteredIssues, IsUnassigned);
      }
    }
    issues := filteredIssues;
  }
}
