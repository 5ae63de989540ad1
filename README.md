# Issue tracker dashboard: the issue aggregation and filter logic, in Dafny

This project models the logic of the issue-tracker dashboard. The dashboard
collects the issues of a configured set of GitHub repositories, merges them,
sorts them and filters them, as directed by the page's query string. The
model covers these parts:

- **The issue client** (`getIssuesFromRepo`, lib/github.ts). It splits
  `owner/repo`, builds the query (`state`, `per_page=100`, `sort=updated`,
  `direction=desc`, and `labels` only when some are given) and sends one
  request. It sorts a failing status into the four error classes of
  `fetchGitHubAPI`, drops pull requests and stamps each issue with its
  repository. A malformed name or a failed request gives the empty list.
- **The aggregator** (`getIssuesFromRepos`):
  - it parses the raw query fields and keeps the well-formed repositories;
  - it asks each repository and concatenates the answers in repository
    order;
  - it sorts the result most recently updated first, with an in-place
    stable sort on an array;
  - it applies the search filter and then the assignment filter.
- **The label catalog** (`getLabelsFromRepos`). It collects every
  repository's labels, keeps the first label of each name and sorts the
  result by name.
- **The components' filter logic**:
  - `removeFilter`, `getLabelColor` and `hasActiveFilters` of the
    active-filter chips;
  - `updateFilters`, `toggleLabel` and the label picker's search and
    twenty-entry cut of the side panel;
  - `getContrastColor`;
  - `toggleOption` and `getDisplayText` of the multi-select dropdown;
  - the breadcrumb trail.

  Of these, `removeFilter`, `updateFilters` and `toggleLabel` edit a copy
  of the query string, a `URLSearchParams` object, in place. That object is
  the class `UrlParams.SearchParams`, over an ordered list of name/value
  pairs, with the `get`, `set`, `delete` and `append` of the WHATWG URL
  Standard. The others compute a value and change nothing.
- **The "My Issues" page**. It keeps the aggregated issues assigned to the
  signed-in user and counts the open ones and the distinct repositories.

The upstream GitHub API is a function parameter, `upstream: Request ->
Response<T>`, from a request to the status and the decoded JSON array. The
configured repository list is a parameter too. Each of these operations is
written as a method whose loops and in-place updates follow the source:
`getIssuesFromRepos`, its fan-out, the sort, `removeFilter`,
`updateFilters` and `toggleLabel`. What each method is proved to do:

- `getIssuesFromRepo`, `getIssuesFromRepos`, the fan-out and the in-place
  sort return exactly a specification function of their inputs
  (`RepoIssues`, `Listing`, `Merged`, `SortByUpdated`). The properties are
  proved about those functions.
- `removeFilter`: the pairs of every other parameter are kept. The edited
  parameter is deleted, set to "open", or set to the comma-joined remaining
  values. The filters read back are `ClearFacet` of the current ones.
- `updateFilters`: the key holds the value, or is deleted for an empty
  value. The pairs of every other name are kept in order.
- `toggleLabel`: the labels read back are `Toggle` of the current ones,
  for a label name that is non-empty and free of commas. No other parameter
  changes.

In these places the code does something a reader might not expect, and
the model follows the code:

- `getIssuesFromRepo` takes the first two `/`-separated parts of a name and
  accepts `a/b/c`. Only the aggregator insists on exactly two parts.
- A `repos` query field that is present but holds only commas selects no
  repository at all. It does not fall back to the configured list, because
  an empty array is truthy in JavaScript.
- Labels are sorted by code-point order in place of `localeCompare`.

## Model

| member | source | states |
|---|---|---|
| GitHubTypes.ClassifyFailure | lib/github.ts:71-86 | A failing status gets its own error class for 404, 401 and 403, and the generic class exactly for every other status. The class gives the status back. |
| GitHubTypes.FetchGitHubApi | lib/github.ts:61-90 | The call succeeds exactly for a 2xx status and then yields the decoded body. Otherwise it fails with an error that carries the status. |
| IssueClient.IssueQueryFacts | lib/github.ts:105-114 | The query asks for the given state, or "open" when the state is missing or empty. It asks for 100 per page, sorted by update, newest first. It carries the comma-joined labels exactly when some labels were given. |
| IssueClient.OwnerAndRepo | lib/github.ts:98-103 | A name is accepted exactly when its first two `/`-separated parts are both non-empty. The owner and repository it yields are non-empty and free of `/`. |
| IssueClient.RepoIssues | lib/github.ts:96-134 | A malformed name gives no issue. No pull request is returned. Every issue returned carries the full name it was asked under. |
| IssueClient.RepoIssuesFromUpstream | lib/github.ts:116-133 | For a well-formed name, any failing status gives the empty list, whatever its error class. On success, every non-pull-request entry comes back stamped with the short name, the full name and the github.com page. Every issue returned is such a stamped entry. |
| IssueClient.StampedUpstream | lib/github.ts:119-129 | Stamping the non-pull-request entries loses none of them and invents none. |
| IssueClient.GetIssuesFromRepo | lib/github.ts:96-134 | The method, which builds the query in a `URLSearchParams` object, returns exactly `RepoIssues`. |
| IssueSort.InsertByUpdatedFacts | lib/github.ts:179 | Inserting into a sorted list keeps it sorted by update time and adds exactly the inserted issue. |
| IssueSort.InsertByUpdatedStable | lib/github.ts:179 | An insertion puts the new issue after the others of its own update time and changes no other update time's issues. |
| IssueSort.SortByUpdatedSorted | lib/github.ts:179 | The sorted list is ordered most recently updated first and is a permutation of the merged list. |
| IssueSort.SortByUpdatedStable | lib/github.ts:179 | The sort is stable: for every update time, the issues of that time keep their merged order. |
| IssueSort.InsertAt | lib/github.ts:179 | Inserting at the first position whose successors were all updated earlier is the specification insertion. |
| IssueSort.ShiftLater | lib/github.ts:179 | The loop moves one place right exactly the tail of the sorted prefix that was updated before the new issue. It leaves the rest of the array alone and returns the gap. |
| IssueSort.InsertInPlace | lib/github.ts:179 | One in-place insertion step makes the prefix equal to the specification insertion and leaves the suffix unchanged. |
| IssueSort.SortInPlace | lib/github.ts:179 | The in-place sort of the merged array leaves exactly `SortByUpdated` of its old contents. |
| Aggregator.ValidRepos | lib/github.ts:146-153 | Every repository kept has exactly two non-empty `/`-separated parts, so the issue client accepts it. |
| Aggregator.ValidationIsPerEntry | lib/github.ts:146-153 | Validation judges each entry on its own: it distributes over concatenation. |
| Aggregator.NameWithoutSlashIsInvalid | lib/github.ts:146-153 | A repository name without a `/` is never accepted as owner/repo. |
| Aggregator.MalformedRepoOnlyGivesNothing | lib/github.ts:137-204 | Asking only for one name without a `/` or `,` gives an empty listing, whatever the upstream answers. |
| Aggregator.MergedConcat | lib/github.ts:160-176 | Asking `a` and then `b` gives the answers of `a` followed by the answers of `b`. |
| Aggregator.MergedProvenance | lib/github.ts:160-176 | The merged answers hold no pull request, and every issue names one of the repositories asked. |
| Aggregator.FailedRepoIsIsolated | lib/github.ts:166-176 | A repository that yields nothing leaves the other repositories' answers exactly as if it had not been asked. |
| Aggregator.SearchFiltered | lib/github.ts:181-192 | An issue survives exactly when it was there and either the search is inactive or the lower-cased term occurs in the title, in a label name, in the assignee's login or in the author's login. |
| Aggregator.AssignmentFiltered | lib/github.ts:194-201 | An issue survives exactly when it was there and "assigned" finds an assignee, "unassigned" finds none, or neither value was given. |
| Aggregator.FiltersPreserveOrder | lib/github.ts:181-201 | Both filters return a subsequence of their input. |
| Aggregator.PipelineOrder | lib/github.ts:179-203 | After the sort and both filters, the result is a subsequence of the sorted list and is itself sorted by update time. |
| Aggregator.PipelineMembers | lib/github.ts:179-203 | After the sort and both filters, an issue is in the result exactly when it was merged and passes both filters. |
| Aggregator.FetchAll | lib/github.ts:160-176 | The fan-out loop returns exactly the concatenated per-repository answers in repository order. |
| Aggregator.ListingFacts | lib/github.ts:137-204 | About `Listing`, what `getIssuesFromRepos` resolves to. The result is empty when no well-formed repository is asked, including a `repos` field made only of commas. It is a sorted subsequence of the sorted merged list. An issue is in it exactly when it was merged and passes both filters. Each issue in it comes from one of the valid repositories and is not a pull request. |
| Aggregator.ListingIsOneFilter | lib/github.ts:179-203 | The listing is the sorted merged list narrowed once by both filters. It holds each surviving merged issue as many times as the merge does, so a repository asked twice gives its issues twice. |
| Aggregator.PipelineIsOneFilter | lib/github.ts:179-203 | The sort followed by the two filters equals one filter by both tests over the sorted list. It is a permutation of the merged issues that pass both tests. |
| Aggregator.SearchFilteredIsFilter | lib/github.ts:181-192 | The search step, active or not, is one filter by the search test. |
| Aggregator.AssignmentFilteredIsFilter | lib/github.ts:194-201 | The assignment step is one filter by the assignment test, whatever the value. |
| Aggregator.GetIssuesFromRepos | lib/github.ts:137-204 | The method returns exactly `Listing` of its inputs. |
| LabelCatalog.RepoLabelsFromUpstream | lib/github.ts:207-219 | About `RepoLabels`, with `Entries` for the `map` at lines 211-214. A failed request gives no label. A successful one gives every label's name and colour, in order. |
| LabelCatalog.FailedRepoAddsNoLabel | lib/github.ts:215-222 | A repository whose request fails leaves the other repositories' labels exactly as they are. |
| LabelCatalog.FindIndex | lib/github.ts:225 | The result is the first index with that name, or -1 exactly when no entry has that name. |
| LabelCatalog.FirstOfEachNameSound | lib/github.ts:225 | The deduplication keeps only entries that are the first of their name. |
| LabelCatalog.FirstOfEachNameDistinct | lib/github.ts:225 | No two kept entries share a name. |
| LabelCatalog.FirstOfEachNameComplete | lib/github.ts:225 | The first entry of every name is kept. |
| LabelCatalog.SortByNameFacts | lib/github.ts:227 | The sort by name orders the names and is a permutation. |
| LabelCatalog.SortByNameDistinct | lib/github.ts:227 | Sorting keeps names distinct. |
| LabelCatalog.CatalogFacts | lib/github.ts:206-228 | About `Catalog`, what `getLabelsFromRepos` resolves to. The catalog's names are strictly increasing: a later name never sorts before or level with an earlier one. Each entry is the first label of its name in repository order, so it has that label's colour. Every label name of every repository appears in the catalog. |
| LabelColour.Channel | components/IssueFilters.tsx:181-183 | Two hexadecimal digits parse to a channel value of at most 255. |
| LabelColour.ContrastColor | components/IssueFilters.tsx:180-186 | The text colour is black or white. It is black exactly when the weighted channel sum exceeds 128000, i.e. the brightness exceeds 128. The same function is found at components/ActiveFilters.tsx:60-66 and components/MultiSelectDropdown.tsx:57-63. |
| LabelColour.ContrastExtremes | components/IssueFilters.tsx:184-185 | White backgrounds get black text; black backgrounds get white text. |
| LabelColour.ContrastMonotone | components/IssueFilters.tsx:184-185 | Brightening any channel never turns black text white. |
| ActiveFilters.ListParam | components/ActiveFilters.tsx:18-19 | A missing parameter gives the empty list. Every item read is non-empty and free of commas. |
| ActiveFilters.NoActiveFiltersWhenDefaults | components/ActiveFilters.tsx:17-21 | About `Current` (the filters read at lines 17-21) and `HasActiveFilters` (lines 68-73). The chips are hidden exactly when every filter parameter is missing or at its default. |
| ActiveFilters.EmptyQueryHasNoActiveFilters | components/ActiveFilters.tsx:68-77 | An empty query string shows no chip. |
| ActiveFilters.LabelColor | components/ActiveFilters.tsx:55-58 | There is no colour exactly when no label has that name. Otherwise the colour is that of the first label with the name. |
| ActiveFilters.ClearFacetOnlyDeactivates | components/ActiveFilters.tsx:23-46 | Removing a chip never makes an inactive filter active. |
| ActiveFilters.ClearFacetDropsValue | components/ActiveFilters.tsx:26-39 | Removing a repository or label chip takes every copy of that value out of the selection. When the value was selected, the selection gets shorter. |
| ActiveFilters.CurrentAfterEdit | components/ActiveFilters.tsx:17-21 | Two query strings that differ only in one parameter give the same filters except the one that parameter feeds. |
| ActiveFilters.WriteList | components/ActiveFilters.tsx:28-32 | A non-empty list filter is written back as its items joined by commas; an empty one is deleted. Either way it reads back as the list. The pairs of every other name are kept in order. |
| ActiveFilters.RemoveFilter | components/ActiveFilters.tsx:23-49 | The pairs of every other parameter are kept in order. For a repository or label chip, the parameter becomes the remaining values joined by commas, or is deleted when none remains. The state is reset to "open"; any other parameter is deleted. The filters read back are the current ones with that chip's filter cleared. |
| IssueFilters.NoActiveFiltersWhenDefaults | components/IssueFilters.tsx:22-24 | About `Current` (the filters read at lines 22-24) and `HasActiveFilters` (line 65). "Clear Filters" is hidden exactly when the state, repo and labels parameters are missing or at their defaults. |
| IssueFilters.UpdateFilters | components/IssueFilters.tsx:39-49 | The key reads back as the value, or as missing when the value is empty. Every other parameter keeps its pairs in order. |
| IssueFilters.ToggleLabel | components/IssueFilters.tsx:51-57 | No other parameter changes. For a comma-free label the labels read back are the toggled selection. Unselecting the only label deletes the parameter. |
| IssueFilters.ShownLabels | components/IssueFilters.tsx:63 | At most twenty labels are shown. Each one is available and its name contains the search, ignoring case. |
| IssueFilters.ShownLabelsArePrefix | components/IssueFilters.tsx:145 | The shown labels are the leading matches: all of them up to twenty, exactly twenty beyond that, in catalog order. |
| IssueFilters.EmptySearchShowsLeadingLabels | components/IssueFilters.tsx:63 | An empty search shows the first twenty available labels. |
| Seqs.Toggle | components/MultiSelectDropdown.tsx:36-39 | The option is selected afterwards exactly when it was not before. An unselected option is appended at the end. |
| Seqs.ToggleKeepsOthers | components/MultiSelectDropdown.tsx:37 | Toggling leaves the other selected options as they were, in order. |
| Seqs.ToggleTwice | components/MultiSelectDropdown.tsx:37 | Toggling an unselected option twice restores the selection. |
| Seqs.FilterOutRemoves | components/ActiveFilters.tsx:27 | Filtering out a value removes every copy, and shortens the list when there was one. |
| Seqs.FilterCount | lib/github.ts:181-201 | A filter keeps every copy of an element that passes and none of one that fails. |
| Seqs.FilterPermutation | lib/github.ts:179-201 | Filtering two permutations of each other gives permutations of each other. |
| Seqs.FilterTwice | lib/github.ts:181-201 | Filtering twice is filtering once by the conjunction of the two tests. |
| Seqs.FlatMapConcat | lib/github.ts:222 | Flattening distributes over concatenation of the repository list. |
| MultiSelect.DisplayTextTruncates | components/MultiSelectDropdown.tsx:41-47 | About `DisplayText`, the `getDisplayText` of the dropdown, with `SlicePrefix` for `slice(0, maxDisplay)`. Over the limit, the text opens with the first `maxDisplay` names exactly as the full join shows them, followed by " +N more" for the number left out. |
| MultiSelect.OmittedCountReadsBack | components/MultiSelectDropdown.tsx:46 | The count in " +N more", read back, added to `maxDisplay`, gives the size of the selection. |
| MultiSelect.DefaultLimitExamples | components/MultiSelectDropdown.tsx:32-47 | With the default limit of 3: an empty selection shows the placeholder, three names are listed, and a fourth becomes " +1 more". |
| Breadcrumbs.Segments | components/BreadcrumbNav.tsx:21 | Every segment is non-empty and free of `/`. |
| Breadcrumbs.FormatSegmentChangesCaseOnly | components/BreadcrumbNav.tsx:28-40 | About `FormatSegment`. A segment other than the four named ones keeps its length and reads the same once lower-cased. It no longer starts with a lower-case letter. |
| Breadcrumbs.FormatSegmentIdempotent | components/BreadcrumbNav.tsx:28-40 | Formatting a caption again leaves it unchanged, including the four fixed names. |
| Breadcrumbs.Trail | components/BreadcrumbNav.tsx:18-48 | There is no trail exactly on "/". Otherwise there is one crumb per segment. |
| Breadcrumbs.TrailLinks | components/BreadcrumbNav.tsx:23-48 | Along the trail each link is a prefix of the next, and only the final crumb is marked last. The final link cuts up into the path's own segments. |
| Breadcrumbs.HrefExtends | components/BreadcrumbNav.tsx:24 | Each crumb's link is the previous one's plus a slash and the next segment. |
| Breadcrumbs.HrefIsPrefix | components/BreadcrumbNav.tsx:24 | Each crumb's link is a prefix of the next one's. |
| Breadcrumbs.LastHrefIsNormalisedPath | components/BreadcrumbNav.tsx:21-25 | The last crumb's link cuts up into the same segments as the path. |
| AssignedIssues.Assigned | app/issues/assigned/page.tsx:49 | Every issue kept was there and is assigned to the user. Every issue assigned to the user is kept. |
| AssignedIssues.AssignedKeepsOrder | app/issues/assigned/page.tsx:49 | The assigned issues keep the aggregated order. |
| AssignedIssues.OpenCount | app/issues/assigned/page.tsx:51 | The open count is at most the number of issues. |
| AssignedIssues.OpenCountExtremes | app/issues/assigned/page.tsx:51 | All issues open gives the full count; none open gives zero. |
| AssignedIssues.RepoCountBounds | app/issues/assigned/page.tsx:52 | About `RepoCount`, the size of the set of repository names. There are at most as many distinct repositories as issues, and none exactly when there is no issue. |
| AssignedIssues.RepoCountOneRepository | app/issues/assigned/page.tsx:52 | Issues of a single repository count as one. |
| UrlParams.SearchParams.constructor | components/IssueFilters.tsx:40 | The copy holds exactly the given pairs. |
| UrlParams.SearchParams.Set | components/IssueFilters.tsx:43 | `set` gives the new value to `get`. It leaves every pair of another name in place and keeps exactly one pair of its name. |
| UrlParams.SearchParams.Delete | components/IssueFilters.tsx:45 | `delete` removes every pair of that name and nothing else. |
| UrlParams.SearchParams.Append | lib/github.ts:113 | `append` adds one pair at the end. |
| UrlParams.Lookup | components/ActiveFilters.tsx:17 | `get` finds nothing exactly when no pair has the name. Otherwise it gives the value of a pair of that name. |
| UrlParams.LookupFirstAt | components/ActiveFilters.tsx:17 | `get` answers with the first pair of that name. |
| UrlParams.SetThenLookup | components/IssueFilters.tsx:43 | After `set`, `get` answers the new value. |
| UrlParams.SetKeepsOthers | components/IssueFilters.tsx:43 | `set` leaves the other pairs as they were and keeps one pair of its name. |
| UrlParams.LookupWithout | components/IssueFilters.tsx:45 | After `delete`, `get` finds nothing for that name and answers as before for every other name. |
| UrlParams.SetLeavesOthers | components/IssueFilters.tsx:43 | After `set`, `get` answers the new value for that name and as before for every other name. |
| UrlParams.DeleteLeavesOthers | components/IssueFilters.tsx:45 | After `delete`, `get` finds nothing for that name and answers as before for every other name. |
| Text.Split | lib/github.ts:98 | `split` gives at least one piece, and no piece holds the separator. |
| Text.JoinSplit | lib/github.ts:98 | Joining the pieces of a split gives back the input. |
| Text.SplitJoin | components/BreadcrumbNav.tsx:21-24 | Splitting a join of separator-free pieces gives back the pieces. |
| Text.ParseListJoin | components/IssueFilters.tsx:24-56 | A list of non-empty, comma-free items written with `join(",")` reads back as the same list. |
| Text.JoinConcat | components/MultiSelectDropdown.tsx:44-46 | Joining a list cut in two is the two joins around one separator. |
| Text.ContainsMeansOccurs | lib/github.ts:185 | `includes` holds exactly when the needle occurs at some position. |
| Text.DecimalRoundTrip | components/MultiSelectDropdown.tsx:46 | The decimal rendering of a count reads back as the count. |
| Text.LexLeTotal | lib/github.ts:227 | Any two names are comparable. |
| Text.LexLeAntisymmetric | lib/github.ts:227 | Names that sort no later than each other are equal. The catalog's strict order rests on it. |
| Text.LexLeTransitive | lib/github.ts:227 | The name order is transitive. |

## Left out

- Network, JSON decoding and `fetch` options: the HTTP exchange is the `upstream` parameter. The token header, the API version header and the 60-second revalidation are not modelled.
- Concurrency: `Promise.allSettled` and `Promise.all` are modelled as a sequential loop over the repositories. The per-repository call catches every error itself, so the rejected branch of `allSettled` is unreachable and is not modelled.
- The check at module load that the token and the repository list are present is not modelled. The configured list is a parameter.
- Error messages, `console.error` logging and the response body read for the generic error are not modelled. The error class and the status are kept.
- Timestamps: `updated_at` is an integer instant. Date parsing is not modelled.
- Text: `toLowerCase` and `toUpperCase` act on ASCII letters only. `localeCompare` is code-point lexicographic order.
- Text: a `string` is a sequence of Unicode code points. JavaScript counts, indexes and compares UTF-16 code units, so lengths, `slice` and the order differ from the source for characters outside the Basic Multilingual Plane.
- LabelColour.ContrastColor: requires six hexadecimal digits, which the API guarantees. `parseInt` returning `NaN` on other input is not modelled.
- The URL serialisation of `URLSearchParams` (`toString` and re-parsing), and `router.push`, are not modelled. The component methods return the edited pairs, standing for the next query string.
- React rendering, hooks, JSX, `usePathname` and `useSearchParams` are not modelled. Their values are parameters.
- `getRepositories` returns the configured list and is not modelled. Neither is `clearAllFilters`, which only navigates to `/issues`.
- The callers in app/issues/page.tsx and components/IssuesContent.tsx are not part of this model.
- IssueFilters.ToggleLabel: the round trip of the selection is stated only for label names that are non-empty and free of commas. A name with a comma is split into several labels when read back, as in the source.
- Breadcrumbs.Trail: each crumb's `label` field is called `caption`, because `label` is a reserved word.
