/**
 * `getLabelsFromRepos` (lib/github.ts): the labels of every configured
 * repository, concatenated in repository order, reduced to the first label
 * of each name and sorted by name. A repository whose request fails
 * contributes no label and does not stop the others.
 */
module LabelCatalog {
  import opened Seqs
  import opened Text
  import opened GitHubTypes

  /** The `{ name, color }` pair kept for each label. */
  datatype LabelEntry = LabelEntry(name: string, color: string)

  /**
   * `/repos/${owner}/${repo}/labels` after `const [owner, repo] = repoFullName.split("/")`.
   * The name is not validated here: a name without a slash interpolates the
   * missing segment as the text "undefined".
   */
  function LabelsPath(repoFullName: string): string
  {
    var parts := Split(repoFullName, '/');
    var repo := if |parts| >= 2 then parts[1] else "undefined";
    "/repos/" + parts[0] + "/" + repo + "/labels"
  }

  /** `labels.map(label => ({ name: label.name, color: label.color }))`. */
  function Entries(labels: seq<Label>): seq<LabelEntry>
  {
    seq(|labels|, i requires 0 <= i < |labels| => LabelEntry(labels[i].name, labels[i].color))
  }

  /** One repository's labels; a failed request is caught and yields none. */
  function RepoLabels(repoFullName: string, upstream: Request -> Response<Label>): seq<LabelEntry>
  {
    match FetchGitHubApi(upstream(Request(LabelsPath(repoFullName), [])))
    case Err(_) => []
    case Ok(labels) => Entries(labels)
  }

  /** A repository's labels come back in full on success and not at all on failure. */
  lemma RepoLabelsFromUpstream(repoFullName: string, upstream: Request -> Response<Label>)
    ensures var response := upstream(Request(LabelsPath(repoFullName), []));
            var r := RepoLabels(repoFullName, upstream);
            && (!IsSuccess(response.status) ==> r == [])
            && (IsSuccess(response.status) ==>
                  |r| == |response.payload| &&
                  forall i :: 0 <= i < |r| ==> r[i].name == response.payload[i].name && r[i].color == response.payload[i].color)
  {
  }

  function RepoLabelsAnswer(upstream: Request -> Response<Label>): string -> seq<LabelEntry>
  {
    (repo: string) => RepoLabels(repo, upstream)
  }

  /** `labelsArrays.flat()`: every repository's labels, in repository order. */
  function AllLabels(repos: seq<string>, upstream: Request -> Response<Label>): seq<LabelEntry>
  {
    FlatMap(repos, RepoLabelsAnswer(upstream))
  }

  /** A repository whose request fails leaves the other repositories' labels as they are. */
  lemma FailedRepoAddsNoLabel(a: seq<string>, repo: string, b: seq<string>, upstream: Request -> Response<Label>)
    requires !IsSuccess(upstream(Request(LabelsPath(repo), [])).status)
    ensures AllLabels(a + [repo] + b, upstream) == AllLabels(a + b, upstream)
  {
    FlatMapSkipsEmpty(a, repo, b, RepoLabelsAnswer(upstream));
  }

  /** `all.findIndex(l => l.name === name)`: the first index with that name, or -1. */
  function FindIndex(all: seq<LabelEntry>, name: string): (i: int)
    ensures -1 <= i < |all|
    ensures i >= 0 ==> all[i].name == name && forall k :: 0 <= k < i ==> all[k].name != name
    ensures i == -1 ==> forall k :: 0 <= k < |all| ==> all[k].name != name
    decreases |all|
  {
    if all == [] then -1
    else if all[0].name == name then 0
    else
      var j := FindIndex(all[1..], name);
      if j == -1 then -1 else j + 1
  }

  /**
   * The entries `all[from..]` that pass `index === self.findIndex(l => l.name === label.name)`,
   * in order.
   */
  function FirstOfEachNameFrom(all: seq<LabelEntry>, from: nat): seq<LabelEntry>
    requires from <= |all|
    decreases |all| - from
  {
    if from == |all| then []
    else (if FindIndex(all, all[from].name) == from then [all[from]] else []) + FirstOfEachNameFrom(all, from + 1)
  }

  /** The deduplication of lib/github.ts:225. */
  function FirstOfEachName(all: seq<LabelEntry>): seq<LabelEntry>
  {
    FirstOfEachNameFrom(all, 0)
  }

  /** The deduplication of `all[from..]` keeps only entries that are the first of their name in `all`. */
  lemma {:induction false} FirstOfEachNameSound(all: seq<LabelEntry>, from: nat)
    requires from <= |all|
    ensures forall i :: 0 <= i < |FirstOfEachNameFrom(all, from)| ==>
              var x := FirstOfEachNameFrom(all, from)[i];
              from <= FindIndex(all, x.name) && all[FindIndex(all, x.name)] == x
    decreases |all| - from
  {
    if from < |all| {
      FirstOfEachNameSound(all, from + 1);
      var rest := FirstOfEachNameFrom(all, from + 1);
      var head := if FindIndex(all, all[from].name) == from then [all[from]] else [];
      var r := head + rest;
      assert FirstOfEachNameFrom(all, from) == r;
      forall i | 0 <= i < |r|
        ensures from <= FindIndex(all, r[i].name) && all[FindIndex(all, r[i].name)] == r[i]
      {
        if i >= |head| {
          assert r[i] == rest[i - |head|];
        }
      }
    }
  }

  /** The deduplication keeps at most one entry per name. */
  lemma {:induction false} FirstOfEachNameDistinct(all: seq<LabelEntry>, from: nat)
    requires from <= |all|
    ensures forall i, k :: 0 <= i < k < |FirstOfEachNameFrom(all, from)| ==>
              FirstOfEachNameFrom(all, from)[i].name != FirstOfEachNameFrom(all, from)[k].name
    decreases |all| - from
  {
    if from < |all| {
      FirstOfEachNameDistinct(all, from + 1);
      FirstOfEachNameSound(all, from + 1);
      var rest := FirstOfEachNameFrom(all, from + 1);
      if FindIndex(all, all[from].name) == from {
        var r := [all[from]] + rest;
        assert FirstOfEachNameFrom(all, from) == r;
        forall i, k | 0 <= i < k < |r|
          ensures r[i].name != r[k].name
        {
          if i == 0 {
            assert r[k] == rest[k - 1];
            assert from + 1 <= FindIndex(all, rest[k - 1].name);
          } else {
            assert r[i] == rest[i - 1] && r[k] == rest[k - 1];
          }
        }
      } else {
        assert FirstOfEachNameFrom(all, from) == [] + rest;
        assert [] + rest == rest;
      }
    }
  }

  /** The deduplication keeps the first entry of every name whose first entry lies in `all[from..]`. */
  lemma {:induction false} FirstOfEachNameComplete(all: seq<LabelEntry>, from: nat)
    requires from <= |all|
    ensures forall j :: from <= j < |all| && FindIndex(all, all[j].name) >= from ==>
              all[FindIndex(all, all[j].name)] in FirstOfEachNameFrom(all, from)
    decreases |all| - from
  {
    if from < |all| {
      FirstOfEachNameComplete(all, from + 1);
      var rest := FirstOfEachNameFrom(all, from + 1);
      var head := if FindIndex(all, all[from].name) == from then [all[from]] else [];
      var r := head + rest;
      assert FirstOfEachNameFrom(all, from) == r;
      forall j | from <= j < |all| && FindIndex(all, all[j].name) >= from
        ensures all[FindIndex(all, all[j].name)] in r
      {
        var f := FindIndex(all, all[j].name);
        if f == from {
          assert r[0] == all[from];
        } else {
          assert all[f].name == all[j].name;
          assert FindIndex(all, all[f].name) == f;
          assert all[f] in rest;
        }
      }
    }
  }

  /** Sorted by name: every entry's name is no later than the next ones'. */
  ghost predicate SortedByName(s: seq<LabelEntry>)
  {
    forall i, j :: 0 <= i < j < |s| ==> LexLe(s[i].name, s[j].name)
  }

  /** Inserts `x` after every entry whose name sorts no later than its own. */
  function InsertByName(sorted: seq<LabelEntry>, x: LabelEntry): seq<LabelEntry>
    decreases |sorted|
  {
    if sorted == [] || LexLe(sorted[|sorted| - 1].name, x.name) then sorted + [x]
    else InsertByName(sorted[..|sorted| - 1], x) + [sorted[|sorted| - 1]]
  }

  /** `sort((a, b) => a.name.localeCompare(b.name))`, with code-point order standing in for the locale order. */
  function SortByName(s: seq<LabelEntry>): seq<LabelEntry>
  {
    if s == [] then [] else InsertByName(SortByName(s[..|s| - 1]), s[|s| - 1])
  }

  /** Appending an entry whose name sorts no earlier than every name keeps the order. */
  lemma SortedByNameSnoc(s: seq<LabelEntry>, last: LabelEntry)
    requires SortedByName(s)
    requires forall i :: 0 <= i < |s| ==> LexLe(s[i].name, last.name)
    ensures SortedByName(s + [last])
  {
  }

  lemma {:induction false} InsertByNameCount(sorted: seq<LabelEntry>, x: LabelEntry)
    ensures multiset(InsertByName(sorted, x)) == multiset(sorted) + multiset{x}
    decreases |sorted|
  {
    if sorted != [] && !LexLe(sorted[|sorted| - 1].name, x.name) {
      var init, last := sorted[..|sorted| - 1], sorted[|sorted| - 1];
      assert sorted == init + [last];
      InsertByNameCount(init, x);
    }
  }

  lemma {:induction false} InsertByNameFacts(sorted: seq<LabelEntry>, x: LabelEntry)
    requires SortedByName(sorted)
    ensures multiset(InsertByName(sorted, x)) == multiset(sorted) + multiset{x}
    ensures SortedByName(InsertByName(sorted, x))
    decreases |sorted|
  {
    InsertByNameCount(sorted, x);
    if sorted == [] {
    } else if LexLe(sorted[|sorted| - 1].name, x.name) {
      var last := sorted[|sorted| - 1];
      forall i | 0 <= i < |sorted|
        ensures LexLe(sorted[i].name, x.name)
      {
        if i < |sorted| - 1 {
          LexLeTransitive(sorted[i].name, last.name, x.name);
        }
      }
      SortedByNameSnoc(sorted, x);
    } else {
      var init, last := sorted[..|sorted| - 1], sorted[|sorted| - 1];
      assert sorted == init + [last];
      LexLeTotal(last.name, x.name);
      InsertByNameFacts(init, x);
      var r := InsertByName(init, x);
      forall i | 0 <= i < |r|
        ensures LexLe(r[i].name, last.name)
      {
        assert r[i] in multiset(r);
        if r[i] != x {
          assert r[i] in multiset(init);
          var k :| 0 <= k < |init| && init[k] == r[i];
          assert sorted[k] == init[k];
        }
      }
      SortedByNameSnoc(r, last);
    }
  }

  lemma {:induction false} SortByNameFacts(s: seq<LabelEntry>)
    ensures SortedByName(SortByName(s))
    ensures multiset(SortByName(s)) == multiset(s)
  {
    if s != [] {
      var init, last := s[..|s| - 1], s[|s| - 1];
      SortByNameFacts(init);
      InsertByNameFacts(SortByName(init), last);
      assert SortByName(s) == InsertByName(SortByName(init), last);
      assert s == init + [last];
      assert multiset(s) == multiset(init) + multiset{last};
    }
  }

  /** No two entries share a name. */
  ghost predicate NamesDistinct(s: seq<LabelEntry>)
  {
    forall i, k :: 0 <= i < k < |s| ==> s[i].name != s[k].name
  }

  /** Inserting an entry of a new name keeps the names distinct. */
  lemma {:induction false} InsertByNameDistinct(sorted: seq<LabelEntry>, x: LabelEntry)
    requires NamesDistinct(sorted)
    requires forall i :: 0 <= i < |sorted| ==> sorted[i].name != x.name
    ensures NamesDistinct(InsertByName(sorted, x))
    decreases |sorted|
  {
    if sorted != [] && !LexLe(sorted[|sorted| - 1].name, x.name) {
      var init, last := sorted[..|sorted| - 1], sorted[|sorted| - 1];
      assert sorted == init + [last];
      InsertByNameDistinct(init, x);
      InsertByNameCount(init, x);
      var r := InsertByName(init, x);
      forall i | 0 <= i < |r|
        ensures r[i].name != last.name
      {
        assert r[i] in multiset(init) + multiset{x};
        if r[i] != x {
          assert r[i] in init;
        }
      }
    }
  }

  /** Sorting entries of distinct names keeps them distinct. */
  lemma {:induction false} SortByNameDistinct(s: seq<LabelEntry>)
    requires NamesDistinct(s)
    ensures NamesDistinct(SortByName(s))
  {
    if s != [] {
      var init, last := s[..|s| - 1], s[|s| - 1];
      SortByNameDistinct(init);
      SortByNameFacts(init);
      var sorted := SortByName(init);
      forall i | 0 <= i < |sorted|
        ensures sorted[i].name != last.name
      {
        assert sorted[i] in multiset(init);
        var m :| 0 <= m < |init| && init[m] == sorted[i];
        assert s[m] == init[m];
      }
      InsertByNameDistinct(sorted, last);
    }
  }

  /**
   * Deduplicating and then sorting `all` gives strictly increasing names: a
   * later name never sorts before or level with an earlier one.
   */
  lemma SortedFirstsIncreasing(all: seq<LabelEntry>)
    ensures var r := SortByName(FirstOfEachName(all));
            forall i, k :: 0 <= i < k < |r| ==> LexLe(r[i].name, r[k].name) && !LexLe(r[k].name, r[i].name)
  {
    var unique := FirstOfEachName(all);
    var r := SortByName(unique);
    FirstOfEachNameDistinct(all, 0);
    SortByNameFacts(unique);
    SortByNameDistinct(unique);
    forall i, k | 0 <= i < k < |r|
      ensures !LexLe(r[k].name, r[i].name)
    {
      if LexLe(r[k].name, r[i].name) {
        LexLeAntisymmetric(r[i].name, r[k].name);
      }
    }
  }

  /** Every entry of the sorted deduplication is the first entry of its name in `all`. */
  lemma SortedFirstsAreFirsts(all: seq<LabelEntry>)
    ensures var r := SortByName(FirstOfEachName(all));
            forall i :: 0 <= i < |r| ==> 0 <= FindIndex(all, r[i].name) && all[FindIndex(all, r[i].name)] == r[i]
  {
    var unique := FirstOfEachName(all);
    var r := SortByName(unique);
    FirstOfEachNameSound(all, 0);
    SortByNameFacts(unique);
    forall i | 0 <= i < |r|
      ensures 0 <= FindIndex(all, r[i].name) && all[FindIndex(all, r[i].name)] == r[i]
    {
      assert r[i] in multiset(unique);
      var m :| 0 <= m < |unique| && unique[m] == r[i];
    }
  }

  /** The sorted deduplication holds the first entry of every name in `all`. */
  lemma SortedFirstsComplete(all: seq<LabelEntry>)
    ensures var r := SortByName(FirstOfEachName(all));
            forall j :: 0 <= j < |all| ==> all[FindIndex(all, all[j].name)] in r
  {
    var unique := FirstOfEachName(all);
    var r := SortByName(unique);
    FirstOfEachNameComplete(all, 0);
    SortByNameFacts(unique);
    forall x | x in unique
      ensures x in r
    {
      assert x in multiset(unique);
    }
  }

  /** `getLabelsFromRepos`: the sorted first-of-each-name catalog of the repositories' labels. */
  function Catalog(repos: seq<string>, upstream: Request -> Response<Label>): seq<LabelEntry>
  {
    SortByName(FirstOfEachName(AllLabels(repos, upstream)))
  }

  /**
   * The catalog's names are strictly increasing, so no name appears twice;
   * every entry is the first label of its name in repository order (its
   * colour is that label's colour); and every name of every repository's
   * labels is in it.
   */
  lemma CatalogFacts(repos: seq<string>, upstream: Request -> Response<Label>)
    ensures var all := AllLabels(repos, upstream);
            var r := Catalog(repos, upstream);
            && (forall i, k :: 0 <= i < k < |r| ==> LexLe(r[i].name, r[k].name) && !LexLe(r[k].name, r[i].name))
            && (forall i :: 0 <= i < |r| ==> 0 <= FindIndex(all, r[i].name) && all[FindIndex(all, r[i].name)] == r[i])
            && (forall j :: 0 <= j < |all| ==> all[FindIndex(all, all[j].name)] in r)
  {
    var all := AllLabels(repos, upstream);
    SortedFirstsIncreasing(all);
    SortedFirstsAreFirsts(all);
    SortedFirstsComplete(all);
  }
}
