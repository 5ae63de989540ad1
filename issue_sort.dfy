/**
 * The sort at lib/github.ts:179: `Array.prototype.sort` with a comparator
 * putting the most recently updated issue first. That sort is stable, so
 * issues updated at the same instant keep the order in which they were
 * merged. `SortByUpdated` is the sorted sequence as a function;
 * `SortInPlace` is the in-place sort of the merged array, proved to produce it.
 */
module IssueSort {
  import opened Seqs
  import opened GitHubTypes

  /** Most recently updated first. */
  ghost predicate SortedByUpdated(s: seq<Issue>)
  {
    forall i, j :: 0 <= i < j < |s| ==> s[i].updatedAt >= s[j].updatedAt
  }

  /** Inserts `x` after every element updated no earlier than it. */
  function InsertByUpdated(sorted: seq<Issue>, x: Issue): seq<Issue>
    decreases |sorted|
  {
    if sorted == [] || sorted[|sorted| - 1].updatedAt >= x.updatedAt then sorted + [x]
    else InsertByUpdated(sorted[..|sorted| - 1], x) + [sorted[|sorted| - 1]]
  }

  /** The merged list after the sort: each issue in turn inserted into the sorted prefix. */
  function SortByUpdated(s: seq<Issue>): seq<Issue>
  {
    if s == [] then [] else InsertByUpdated(SortByUpdated(s[..|s| - 1]), s[|s| - 1])
  }

  function UpdatedAtIs(t: int): Issue -> bool
  {
    (issue: Issue) => issue.updatedAt == t
  }

  /** The issues updated at instant `t`, in order. */
  function UpdatedAt(s: seq<Issue>, t: int): seq<Issue>
  {
    Filter(s, UpdatedAtIs(t))
  }

  /** Appending an issue updated no later than every element keeps the order. */
  lemma SortedSnoc(s: seq<Issue>, last: Issue)
    requires SortedByUpdated(s)
    requires forall i :: 0 <= i < |s| ==> s[i].updatedAt >= last.updatedAt
    ensures SortedByUpdated(s + [last])
  {
  }

  lemma {:induction false} InsertByUpdatedCount(sorted: seq<Issue>, x: Issue)
    ensures multiset(InsertByUpdated(sorted, x)) == multiset(sorted) + multiset{x}
    decreases |sorted|
  {
    if sorted == [] || sorted[|sorted| - 1].updatedAt >= x.updatedAt {
    } else {
      var init, last := sorted[..|sorted| - 1], sorted[|sorted| - 1];
      assert sorted == init + [last];
      InsertByUpdatedCount(init, x);
    }
  }

  lemma {:induction false} InsertByUpdatedFacts(sorted: seq<Issue>, x: Issue)
    requires SortedByUpdated(sorted)
    ensures multiset(InsertByUpdated(sorted, x)) == multiset(sorted) + multiset{x}
    ensures SortedByUpdated(InsertByUpdated(sorted, x))
    decreases |sorted|
  {
    InsertByUpdatedCount(sorted, x);
    if sorted == [] || sorted[|sorted| - 1].updatedAt >= x.updatedAt {
      SortedSnoc(sorted, x);
    } else {
      var init, last := sorted[..|sorted| - 1], sorted[|sorted| - 1];
      assert sorted == init + [last];
      InsertByUpdatedFacts(init, x);
      var r := InsertByUpdated(init, x);
      forall i | 0 <= i < |r|
        ensures r[i].updatedAt >= last.updatedAt
      {
        assert r[i] in multiset(r);
        if r[i] != x {
          assert r[i] in multiset(init);
          var k :| 0 <= k < |init| && init[k] == r[i];
          assert sorted[k] == init[k];
        }
      }
      SortedSnoc(r, last);
    }
  }

  /** Inserting `x` adds it after the issues of its own instant and changes no other instant. */
  lemma {:induction false} InsertByUpdatedStable(sorted: seq<Issue>, x: Issue, t: int)
    ensures UpdatedAt(InsertByUpdated(sorted, x), t) == UpdatedAt(sorted, t) + UpdatedAt([x], t)
    decreases |sorted|
  {
    if sorted == [] || sorted[|sorted| - 1].updatedAt >= x.updatedAt {
      FilterConcat(sorted, [x], UpdatedAtIs(t));
    } else {
      var init, last := sorted[..|sorted| - 1], sorted[|sorted| - 1];
      var r := InsertByUpdated(init, x);
      assert InsertByUpdated(sorted, x) == r + [last];
      assert sorted == init + [last];
      InsertByUpdatedStable(init, x, t);
      FilterConcat(r, [last], UpdatedAtIs(t));
      FilterConcat(init, [last], UpdatedAtIs(t));
      UpdatedAtSingle(x, t);
      UpdatedAtSingle(last, t);
      SwapAroundEmpty(UpdatedAt(init, t), UpdatedAt([x], t), UpdatedAt([last], t));
    }
  }

  /** Two pieces of which one is empty can be appended in either order. */
  lemma SwapAroundEmpty(front: seq<Issue>, a: seq<Issue>, b: seq<Issue>)
    requires a == [] || b == []
    ensures front + a + b == front + b + a
  {
    if a == [] {
      assert front + a == front;
    } else {
      assert front + b == front;
    }
  }

  /** A single issue is kept exactly when it was updated at `t`. */
  lemma UpdatedAtSingle(x: Issue, t: int)
    ensures UpdatedAt([x], t) == if x.updatedAt == t then [x] else []
  {
    assert [x][1..] == [];
  }

  /** The sort keeps every issue, as many times as it was merged. */
  lemma {:induction false} SortByUpdatedCount(s: seq<Issue>)
    ensures multiset(SortByUpdated(s)) == multiset(s)
  {
    if s != [] {
      var init, last := s[..|s| - 1], s[|s| - 1];
      SortByUpdatedCount(init);
      InsertByUpdatedCount(SortByUpdated(init), last);
      assert s == init + [last];
    }
  }

  /** The sort puts the most recently updated issue first, and keeps every issue. */
  lemma {:induction false} SortByUpdatedSorted(s: seq<Issue>)
    ensures SortedByUpdated(SortByUpdated(s))
    ensures multiset(SortByUpdated(s)) == multiset(s)
  {
    SortByUpdatedCount(s);
    if s != [] {
      var init := s[..|s| - 1];
      SortByUpdatedSorted(init);
      InsertByUpdatedFacts(SortByUpdated(init), s[|s| - 1]);
    }
  }

  /** The sort is stable: the issues of each instant keep their merged order. */
  lemma {:induction false} SortByUpdatedStable(s: seq<Issue>, t: int)
    ensures UpdatedAt(SortByUpdated(s), t) == UpdatedAt(s, t)
  {
    if s != [] {
      var init, last := s[..|s| - 1], s[|s| - 1];
      SortByUpdatedStable(init, t);
      InsertByUpdatedStable(SortByUpdated(init), last, t);
      UpdatedAtSnoc(s, t);
    }
  }

  /** The issues of instant `t` in a list are those of all but its last element, then the last if it qualifies. */
  lemma UpdatedAtSnoc(s: seq<Issue>, t: int)
    requires s != []
    ensures UpdatedAt(s, t) == UpdatedAt(s[..|s| - 1], t) + UpdatedAt([s[|s| - 1]], t)
  {
    assert s == s[..|s| - 1] + [s[|s| - 1]];
    FilterConcat(s[..|s| - 1], [s[|s| - 1]], UpdatedAtIs(t));
  }

  /**
   * Inserting `x` into a prefix whose elements from `j` on were updated
   * strictly before it, and whose element `j - 1` (if any) was not, puts `x`
   * at index `j`.
   */
  lemma {:induction false} InsertAt(sorted: seq<Issue>, x: Issue, j: int)
    requires 0 <= j <= |sorted|
    requires j > 0 ==> sorted[j - 1].updatedAt >= x.updatedAt
    requires forall k :: j <= k < |sorted| ==> sorted[k].updatedAt < x.updatedAt
    ensures InsertByUpdated(sorted, x) == sorted[..j] + [x] + sorted[j..]
    decreases |sorted|
  {
    if j == |sorted| {
      assert sorted[..j] == sorted && sorted[j..] == [];
    } else {
      var init, last := sorted[..|sorted| - 1], sorted[|sorted| - 1];
      InsertAt(init, x, j);
      assert init[..j] == sorted[..j];
      assert init[j..] + [last] == sorted[j..];
    }
  }

  /**
   * Shifts one place to the right the issues at the end of the sorted prefix
   * `a[..i]` that were updated before `x`, and returns the gap left for `x`.
   */
  method ShiftLater(a: array<Issue>, i: int, x: Issue) returns (j: int)
    requires 0 <= i < a.Length
    modifies a
    ensures 0 <= j <= i
    ensures j > 0 ==> old(a[j - 1]).updatedAt >= x.updatedAt
    ensures forall k :: j <= k < i ==> old(a[k]).updatedAt < x.updatedAt
    ensures forall k :: 0 <= k < j ==> a[k] == old(a[k])
    ensures forall k :: j < k <= i ==> a[k] == old(a[k - 1])
    ensures forall k :: i < k < a.Length ==> a[k] == old(a[k])
  {
    j := i;
    while j > 0 && a[j - 1].updatedAt < x.updatedAt
      invariant 0 <= j <= i
      invariant forall k :: 0 <= k < j ==> a[k] == old(a[k])
      invariant forall k :: j < k <= i ==> a[k] == old(a[k - 1])
      invariant forall k :: j <= k < i ==> old(a[k]).updatedAt < x.updatedAt
      invariant forall k :: i < k < a.Length ==> a[k] == old(a[k])
    {
      a[j] := a[j - 1];
      j := j - 1;
    }
  }

  /** Moves `a[i]` left past the issues of the sorted prefix `a[..i]` that were updated before it. */
  method InsertInPlace(a: array<Issue>, i: int)
    requires 0 <= i < a.Length
    modifies a
    ensures a[..i + 1] == InsertByUpdated(old(a[..i]), old(a[i]))
    ensures a[i + 1..] == old(a[i + 1..])
  {
    var x := a[i];
    ghost var prefix := a[..i];
    ghost var suffix := a[i + 1..];
    var j := ShiftLater(a, i, x);
    a[j] := x;
    InsertAt(prefix, x, j);
    Spliced(a[..i + 1], prefix, x, j);
    assert a[i + 1..] == suffix;
  }

  /** A sequence agreeing pointwise with `prefix` with `x` put in at index `j`. */
  lemma Spliced(b: seq<Issue>, prefix: seq<Issue>, x: Issue, j: int)
    requires 0 <= j <= |prefix| && |b| == |prefix| + 1
    requires forall k :: 0 <= k < j ==> b[k] == prefix[k]
    requires b[j] == x
    requires forall k :: j < k < |b| ==> b[k] == prefix[k - 1]
    ensures b == prefix[..j] + [x] + prefix[j..]
  {
  }

  /** The in-place insertion sort of the merged array. */
  method SortInPlace(a: array<Issue>)
    modifies a
    ensures a[..] == SortByUpdated(old(a[..]))
  {
    ghost var input := a[..];
    var i := 0;
    while i < a.Length
      invariant 0 <= i <= a.Length
      invariant a[..i] == SortByUpdated(input[..i])
      invariant a[i..] == input[i..]
    {
      InsertInPlace(a, i);
      assert input[..i + 1][..i] == input[..i];
      assert a[i + 1..] == input[i + 1..];
      i := i + 1;
    }
    assert input[..a.Length] == input;
  }
}
