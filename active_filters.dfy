/**
 * The active-filter chips of the issues page (components/ActiveFilters.tsx):
 * the filters read from the query string, whether any of them is active,
 * the label colour lookup, and `removeFilter`, which edits a copy of the
 * query string so that one chip's filter is gone.
 */
module ActiveFilters {
  import opened Wrappers
  import opened Seqs
  import opened Text
  import opened UrlParams
  import LabelCatalog

  /** The five filters as the component reads them, defaults applied. */
  datatype CurrentFilters = CurrentFilters(
    state: string,
    repos: seq<string>,
    labels: seq<string>,
    search: string,
    assignment: string)

  /**
   * `get(name)?.split(",").filter(Boolean) || []`: the empty list only when
   * the parameter is missing (a present parameter always parses to an array,
   * which is truthy even when empty).
   */
  function ListParam(params: seq<Pair>, name: string): (items: seq<string>)
    ensures Lookup(params, name).None? ==> items == []
    ensures forall i :: 0 <= i < |items| ==> items[i] != "" && ',' !in items[i]
  {
    match Lookup(params, name)
    case None => []
    case Some(s) => ParseList(s, ',')
  }

  /** The filters at components/ActiveFilters.tsx:17-21. */
  function Current(params: seq<Pair>): CurrentFilters
  {
    CurrentFilters(
      OrDefault(Lookup(params, "state"), "open"),
      ListParam(params, "repos"),
      ListParam(params, "labels"),
      OrDefault(Lookup(params, "search"), ""),
      OrDefault(Lookup(params, "assignment"), "all"))
  }

  /** Some filter differs from its default. */
  predicate HasActiveFilters(f: CurrentFilters)
  {
    f.state != "open" || |f.repos| > 0 || |f.labels| > 0 || f.search != "" || f.assignment != "all"
  }

  /**
   * Nothing is shown exactly when every filter parameter is missing or at
   * its default: state missing, empty or "open"; repos and labels missing or
   * made of separators only; search missing or empty; assignment missing,
   * empty or "all".
   */
  lemma NoActiveFiltersWhenDefaults(params: seq<Pair>)
    ensures !HasActiveFilters(Current(params)) <==>
              && Lookup(params, "state") in {None, Some(""), Some("open")}
              && (Lookup(params, "repos").None? || ParseList(Lookup(params, "repos").value, ',') == [])
              && (Lookup(params, "labels").None? || ParseList(Lookup(params, "labels").value, ',') == [])
              && Lookup(params, "search") in {None, Some("")}
              && Lookup(params, "assignment") in {None, Some(""), Some("all")}
  {
  }

  /** An empty query string has no active filter. */
  lemma EmptyQueryHasNoActiveFilters()
    ensures !HasActiveFilters(Current([]))
  {
  }

  /** `availableLabels.find(l => l.name === labelName)?.color`. */
  function LabelColor(available: seq<LabelCatalog.LabelEntry>, labelName: string): (colour: Option<string>)
    ensures colour.None? <==> forall k :: 0 <= k < |available| ==> available[k].name != labelName
    ensures colour.Some? ==>
              exists k :: 0 <= k < |available| && available[k].name == labelName && available[k].color == colour.value &&
                forall m :: 0 <= m < k ==> available[m].name != labelName
  {
    var i := LabelCatalog.FindIndex(available, labelName);
    if i < 0 then None else Some(available[i].color)
  }

  /** A value the source treats as truthy: present and not empty. */
  predicate Truthy(value: Option<string>)
  {
    value.Some? && value.value != ""
  }

  /**
   * What removing a chip does to the filters themselves: a repository or a
   * label chip drops every copy of its value, the state chip resets the
   * state to "open", and any other chip clears its filter.
   */
  function ClearFacet(f: CurrentFilters, key: string, value: Option<string>): CurrentFilters
  {
    if key == "repos" && Truthy(value) then f.(repos := Filter(f.repos, NotEqualTo(value.value)))
    else if key == "labels" && Truthy(value) then f.(labels := Filter(f.labels, NotEqualTo(value.value)))
    else if key == "state" then f.(state := "open")
    else if key == "repos" then f.(repos := [])
    else if key == "labels" then f.(labels := [])
    else if key == "search" then f.(search := "")
    else if key == "assignment" then f.(assignment := "all")
    else f
  }

  /** Removing a chip never makes a filter active that was not. */
  lemma ClearFacetOnlyDeactivates(f: CurrentFilters, key: string, value: Option<string>)
    ensures HasActiveFilters(ClearFacet(f, key, value)) ==> HasActiveFilters(f)
  {
    if key == "repos" && Truthy(value) {
      assert |Filter(f.repos, NotEqualTo(value.value))| <= |f.repos|;
    } else if key == "labels" && Truthy(value) {
      assert |Filter(f.labels, NotEqualTo(value.value))| <= |f.labels|;
    }
  }

  /** Removing a selected repository or label takes it out of the selection; the rest stay in order. */
  lemma ClearFacetDropsValue(f: CurrentFilters, key: string, v: string)
    requires v != "" && (key == "repos" || key == "labels")
    ensures var g := ClearFacet(f, key, Some(v));
            && (key == "repos" ==> v !in g.repos && (v in f.repos ==> |g.repos| < |f.repos|))
            && (key == "labels" ==> v !in g.labels && (v in f.labels ==> |g.labels| < |f.labels|))
  {
    FilterOutRemoves(f.repos, v);
    FilterOutRemoves(f.labels, v);
  }

  /**
   * Two query strings that read alike on every parameter except `key` give
   * the same filters except the one `key` stands for.
   */
  lemma CurrentAfterEdit(current: seq<Pair>, next: seq<Pair>, key: string)
    requires forall k :: k != key ==> Lookup(next, k) == Lookup(current, k)
    ensures key == "state" ==> Current(next) == Current(current).(state := Current(next).state)
    ensures key == "repos" ==> Current(next) == Current(current).(repos := Current(next).repos)
    ensures key == "labels" ==> Current(next) == Current(current).(labels := Current(next).labels)
    ensures key == "search" ==> Current(next) == Current(current).(search := Current(next).search)
    ensures key == "assignment" ==> Current(next) == Current(current).(assignment := Current(next).assignment)
    ensures key !in {"state", "repos", "labels", "search", "assignment"} ==> Current(next) == Current(current)
  {
    assert key != "state" ==> Lookup(next, "state") == Lookup(current, "state");
    assert key != "repos" ==> Lookup(next, "repos") == Lookup(current, "repos");
    assert key != "labels" ==> Lookup(next, "labels") == Lookup(current, "labels");
    assert key != "search" ==> Lookup(next, "search") == Lookup(current, "search");
    assert key != "assignment" ==> Lookup(next, "assignment") == Lookup(current, "assignment");
  }

  /** A list chip's removal, read back through the filters. */
  lemma ListRemovalMeaning(current: seq<Pair>, next: seq<Pair>, key: string, v: string)
    requires (key == "repos" || key == "labels") && v != ""
    requires forall k :: k != key ==> Lookup(next, k) == Lookup(current, k)
    requires ListParam(next, key) == Filter(ListParam(current, key), NotEqualTo(v))
    ensures Current(next) == ClearFacet(Current(current), key, Some(v))
  {
    CurrentAfterEdit(current, next, key);
  }

  /** Any other chip's removal, read back through the filters. */
  lemma OtherRemovalMeaning(current: seq<Pair>, next: seq<Pair>, key: string, value: Option<string>)
    requires !((key == "repos" || key == "labels") && Truthy(value))
    requires forall k :: k != key ==> Lookup(next, k) == Lookup(current, k)
    requires key == "state" ==> Lookup(next, "state") == Some("open")
    requires key != "state" ==> Lookup(next, key) == None
    ensures Current(next) == ClearFacet(Current(current), key, value)
  {
    CurrentAfterEdit(current, next, key);
  }

  /**
   * Writes a list filter back: the comma-joined list when it is not empty,
   * otherwise the parameter is deleted. Either way it reads back as the list.
   */
  method WriteList(params: SearchParams, name: string, items: seq<string>)
    requires forall i :: 0 <= i < |items| ==> items[i] != "" && ',' !in items[i]
    modifies params
    ensures ListParam(params.pairs, name) == items
    ensures Lookup(params.pairs, name) == if |items| > 0 then Some(Join(items, ",")) else None
    ensures Without(params.pairs, name) == Without(old(params.pairs), name)
    ensures forall k :: k != name ==> Lookup(params.pairs, k) == Lookup(old(params.pairs), k)
  {
    if |items| > 0 {
      SetLeavesOthers(params.pairs, name, Join(items, ","));
      params.Set(name, Join(items, ","));
      ParseListJoin(items, ',');
    } else {
      DeleteLeavesOthers(params.pairs, name);
      params.Delete(name);
    }
  }

  /**
   * `removeFilter(key, value)`: copies the current query string, edits the
   * copy and returns it (the page then navigates to it). Every parameter
   * other than `key` is kept; the filters read from the result are the
   * current ones with that chip's filter cleared.
   */
  method RemoveFilter(current: seq<Pair>, key: string, value: Option<string>) returns (next: seq<Pair>)
    ensures forall k :: k != key ==> Lookup(next, k) == Lookup(current, k)
    ensures Current(next) == ClearFacet(Current(current), key, value)
    ensures key == "state" ==> Lookup(next, "state") == Some("open")
    ensures key != "state" && !((key == "repos" || key == "labels") && Truthy(value)) ==> Lookup(next, key) == None
    ensures (key == "repos" || key == "labels") && Truthy(value) ==>
              var rest := Filter(ListParam(current, key), NotEqualTo(value.value));
              Lookup(next, key) == if rest == [] then None else Some(Join(rest, ","))
    ensures Without(next, key) == Without(current, key)
  {
    var currentRepos := ListParam(current, "repos");
    var currentLabels := ListParam(current, "labels");
    var params := new SearchParams(current);

    if key == "repos" && value.Some? && value.value != "" {
      var repos := Filter(currentRepos, NotEqualTo(value.value));
      WriteList(params, "repos", repos);
      ListRemovalMeaning(current, params.pairs, key, value.value);
    } else if key == "labels" && value.Some? && value.value != "" {
      var labels := Filter(currentLabels, NotEqualTo(value.value));
      WriteList(params, "labels", labels);
      ListRemovalMeaning(current, params.pairs, key, value.value);
    } else {
      if key == "state" {
        SetLeavesOthers(params.pairs, "state", "open");
        params.Set("state", "open");
      } else {
        DeleteLeavesOthers(params.pairs, key);
        params.Delete(key);
      }
      OtherRemovalMeaning(current, params.pairs, key, value);
    }
    next := params.pairs;
  }
}
