/**
 * The filter side panel (components/IssueFilters.tsx): the filters it reads
 * from the query string, `updateFilters` and `toggleLabel`, which edit a copy
 * of the query string, and the label picker's search.
 */
module IssueFilters {
  import opened Wrappers
  import opened Seqs
  import opened Text
  import opened UrlParams
  import opened LabelCatalog
  import ActiveFilters

  /** The panel's filters: state (default "open"), a single repository and the labels. */
  datatype PanelFilters = PanelFilters(state: string, repo: string, labels: seq<string>)

  /** The filters at components/IssueFilters.tsx:22-24. */
  function Current(params: seq<Pair>): PanelFilters
  {
    PanelFilters(
      OrDefault(Lookup(params, "state"), "open"),
      OrDefault(Lookup(params, "repo"), ""),
      ActiveFilters.ListParam(params, "labels"))
  }

  predicate HasActiveFilters(f: PanelFilters)
  {
    f.state != "open" || f.repo != "" || |f.labels| > 0
  }

  /**
   * The "Clear Filters" button is hidden exactly when the state parameter is
   * missing, empty or "open", the repo parameter is missing or empty, and the
   * labels parameter is missing or holds separators only.
   */
  lemma NoActiveFiltersWhenDefaults(params: seq<Pair>)
    ensures !HasActiveFilters(Current(params)) <==>
              && Lookup(params, "state") in {None, Some(""), Some("open")}
              && Lookup(params, "repo") in {None, Some("")}
              && (Lookup(params, "labels").None? || ParseList(Lookup(params, "labels").value, ',') == [])
  {
  }

  /**
   * `updateFilters(key, value)`: a copy of the query string where `key` is
   * set to `value`, or deleted when `value` is empty. Every other parameter
   * keeps its pairs, in order.
   */
  method UpdateFilters(current: seq<Pair>, key: string, value: string) returns (next: seq<Pair>)
    ensures Lookup(next, key) == if value != "" then Some(value) else None
    ensures Without(next, key) == Without(current, key)
    ensures forall k :: k != key ==> Lookup(next, k) == Lookup(current, k)
  {
    var params := new SearchParams(current);
    if value != "" {
      SetLeavesOthers(params.pairs, key, value);
      params.Set(key, value);
    } else {
      DeleteLeavesOthers(params.pairs, key);
      params.Delete(key);
    }
    next := params.pairs;
  }

  /**
   * `toggleLabel(labelName)`: the label is removed from the selection when
   * it is there and appended otherwise, and the joined list is written back.
   * For a label name free of commas, the labels read back are exactly the
   * toggled selection; unselecting the only selected label deletes the
   * parameter.
   */
  method ToggleLabel(current: seq<Pair>, labelName: string) returns (next: seq<Pair>)
    ensures forall k :: k != "labels" ==> Lookup(next, k) == Lookup(current, k)
    ensures labelName != "" && ',' !in labelName ==>
              Current(next).labels == Toggle(Current(current).labels, labelName)
    ensures Current(current).labels == [labelName] ==> Lookup(next, "labels") == None
  {
    var currentLabels := ActiveFilters.ListParam(current, "labels");
    var newLabels := Toggle(currentLabels, labelName);
    next := UpdateFilters(current, "labels", Join(newLabels, ","));
    if labelName != "" && ',' !in labelName {
      forall i | 0 <= i < |newLabels|
        ensures newLabels[i] != "" && ',' !in newLabels[i]
      {
        if newLabels[i] != labelName {
          assert newLabels[i] in currentLabels;
        }
      }
      if |newLabels| > 0 {
        ParseListJoin(newLabels, ',');
      }
    }
    if currentLabels == [labelName] {
      assert newLabels == [] by {
        FilterDropsAll(currentLabels, NotEqualTo(labelName));
      }
    }
  }

  /** `label => label.name.toLowerCase().includes(labelSearch.toLowerCase())`. */
  function NameMatches(labelSearch: string): LabelEntry -> bool
  {
    (entry: LabelEntry) => Contains(Lower(entry.name), Lower(labelSearch))
  }

  /** How many matching labels the picker shows at most. */
  const MaxShownLabels := 20

  /** `filteredLabels.slice(0, 20)`: the first twenty labels whose name contains the search, ignoring case. */
  function ShownLabels(available: seq<LabelEntry>, labelSearch: string): (shown: seq<LabelEntry>)
    ensures |shown| <= MaxShownLabels
    ensures forall i :: 0 <= i < |shown| ==> shown[i] in available && Contains(Lower(shown[i].name), Lower(labelSearch))
  {
    var filtered := Filter(available, NameMatches(labelSearch));
    if |filtered| <= MaxShownLabels then filtered else filtered[..MaxShownLabels]
  }

  /**
   * The shown labels are the leading matches: all of them when there are at
   * most twenty, otherwise exactly twenty, in the catalog's order.
   */
  lemma ShownLabelsArePrefix(available: seq<LabelEntry>, labelSearch: string)
    ensures var filtered := Filter(available, NameMatches(labelSearch));
            var shown := ShownLabels(available, labelSearch);
            && shown == filtered[..|shown|]
            && (|filtered| <= MaxShownLabels ==> shown == filtered)
            && (|filtered| > MaxShownLabels ==> |shown| == MaxShownLabels)
            && IsSubsequence(shown, available)
  {
    var filtered := Filter(available, NameMatches(labelSearch));
    var shown := ShownLabels(available, labelSearch);
    FilterIsSubsequence(available, NameMatches(labelSearch));
    assert shown == filtered[..|shown|];
    PrefixIsSubsequence(filtered, |shown|);
    SubsequenceTransitive(shown, filtered, available);
  }

  /** An empty search hides nothing but the labels after the twentieth. */
  lemma EmptySearchShowsLeadingLabels(available: seq<LabelEntry>)
    ensures ShownLabels(available, "") == if |available| <= MaxShownLabels then available else available[..MaxShownLabels]
  {
    forall l | l in available
      ensures NameMatches("")(l)
    {
      ContainsEmpty(Lower(l.name));
    }
    FilterKeepsAll(available, NameMatches(""));
  }
}
