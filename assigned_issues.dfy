/**
 * The "My Issues" page (app/issues/assigned/page.tsx): the aggregated issues
 * narrowed to those assigned to the signed-in user, and the two counters
 * shown above them.
 */
module AssignedIssues {
  import opened Wrappers
  import opened Seqs
  import opened GitHubTypes

  /** `issue => issue.assignee?.login === username`. */
  function AssignedTo(username: string): Issue -> bool
  {
    (issue: Issue) => issue.assignee.Some? && issue.assignee.value.login == username
  }

  /**
   * The issues assigned to `username`, in the aggregated order: every one
   * has an assignee with that login, none without an assignee is kept, and
   * every issue so assigned is kept.
   */
  function Assigned(all: seq<Issue>, username: string): (mine: seq<Issue>)
    ensures forall i :: 0 <= i < |mine| ==>
              mine[i] in all && mine[i].assignee.Some? && mine[i].assignee.value.login == username
    ensures forall i :: 0 <= i < |all| && all[i].assignee.Some? && all[i].assignee.value.login == username ==>
              all[i] in mine
  {
    Filter(all, AssignedTo(username))
  }

  /** The assigned issues keep the aggregated order. */
  lemma AssignedKeepsOrder(all: seq<Issue>, username: string)
    ensures IsSubsequence(Assigned(all, username), all)
  {
    FilterIsSubsequence(all, AssignedTo(username));
  }

  function IsOpen(issue: Issue): bool
  {
    issue.state == Open
  }

  /** `assignedIssues.filter(issue => issue.state === "open").length`. */
  function OpenCount(issues: seq<Issue>): (n: nat)
    ensures n <= |issues|
  {
    |Filter(issues, IsOpen)|
  }

  /** Every issue open gives the full count; none open gives zero. */
  lemma OpenCountExtremes(issues: seq<Issue>)
    ensures (forall i :: 0 <= i < |issues| ==> issues[i].state == Open) ==> OpenCount(issues) == |issues|
    ensures (forall i :: 0 <= i < |issues| ==> issues[i].state != Open) ==> OpenCount(issues) == 0
  {
    if forall i :: 0 <= i < |issues| ==> issues[i].state == Open {
      FilterKeepsAll(issues, IsOpen);
    }
    if forall i :: 0 <= i < |issues| ==> issues[i].state != Open {
      FilterDropsAll(issues, IsOpen);
    }
  }

  /** `i.repository?.full_name`: the full name, or undefined when no repository is attached. */
  function RepoKey(issue: Issue): Option<string>
  {
    if issue.repository.Some? then Some(issue.repository.value.fullName) else None
  }

  /** `new Set(assignedIssues.map(i => i.repository?.full_name))`. */
  function RepoKeys(issues: seq<Issue>): set<Option<string>>
  {
    set i | 0 <= i < |issues| :: RepoKey(issues[i])
  }

  /** `.size` of that set. */
  function RepoCount(issues: seq<Issue>): nat
  {
    |RepoKeys(issues)|
  }

  /** The distinct repositories number at most the issues, and none only when there is no issue. */
  lemma {:induction false} RepoCountBounds(issues: seq<Issue>)
    ensures RepoCount(issues) <= |issues|
    ensures RepoCount(issues) == 0 <==> issues == []
  {
    if issues != [] {
      var init := issues[..|issues| - 1];
      RepoCountBounds(init);
      assert RepoKeys(issues) == RepoKeys(init) + {RepoKey(issues[|issues| - 1])} by {
        forall k | k in RepoKeys(issues)
          ensures k in RepoKeys(init) + {RepoKey(issues[|issues| - 1])}
        {
          var i :| 0 <= i < |issues| && k == RepoKey(issues[i]);
          if i < |issues| - 1 {
            assert init[i] == issues[i];
          }
        }
        forall k | k in RepoKeys(init)
          ensures k in RepoKeys(issues)
        {
          var i :| 0 <= i < |init| && k == RepoKey(init[i]);
          assert issues[i] == init[i];
        }
      }
      assert RepoKey(issues[|issues| - 1]) in RepoKeys(issues);
    }
  }

  /** Issues of one repository count as one. */
  lemma RepoCountOneRepository(issues: seq<Issue>, fullName: string)
    requires issues != []
    requires forall i :: 0 <= i < |issues| ==> issues[i].repository.Some? && issues[i].repository.value.fullName == fullName
    ensures RepoCount(issues) == 1
  {
    assert RepoKeys(issues) == {Some(fullName)} by {
      assert RepoKey(issues[0]) == Some(fullName);
    }
  }
}
