/**
 * The per-viewer queries of a milestone: how many of its items the viewer can
 * see, how many of those are closed, the percentage closed and whether all of
 * them are closed. Confidential issues a viewer may not see are never counted.
 */
module Aggregation {
  import opened WorkItems
  import opened Visibility

  /** The items the viewer may see, in milestone order. */
  function VisibleItems(team: Team, items: seq<WorkItem>, v: Viewer): (r: seq<WorkItem>)
    ensures |r| <= |items|
  {
    if items == [] then []
    else
      var last := items[|items| - 1];
      VisibleItems(team, items[..|items| - 1], v) + (if CanSee(team, v, last) then [last] else [])
  }

  /** The closed items of `s`, in order. */
  function ClosedOf(s: seq<WorkItem>): (r: seq<WorkItem>)
    ensures |r| <= |s|
  {
    if s == [] then []
    else
      var last := s[|s| - 1];
      ClosedOf(s[..|s| - 1]) + (if IsClosed(last) then [last] else [])
  }

  /** Reference definitions: the positions of the milestone's items a viewer can see. */
  ghost function VisibleIndices(team: Team, items: seq<WorkItem>, v: Viewer): set<nat>
  {
    set i: nat | i < |items| && CanSee(team, v, items[i])
  }

  ghost function ClosedVisibleIndices(team: Team, items: seq<WorkItem>, v: Viewer): set<nat>
  {
    set i: nat | i < |items| && CanSee(team, v, items[i]) && IsClosed(items[i])
  }

  ghost function PublicIndices(items: seq<WorkItem>): set<nat>
  {
    set i: nat | i < |items| && !IsConfidential(items[i])
  }

  ghost function ClosedPublicIndices(items: seq<WorkItem>): set<nat>
  {
    set i: nat | i < |items| && !IsConfidential(items[i]) && IsClosed(items[i])
  }

  ghost function VisibleIssueIndices(team: Team, items: seq<WorkItem>, v: Viewer): set<nat>
  {
    set i: nat | i < |items| && items[i].Issue? && CanSee(team, v, items[i])
  }

  ghost function MergeRequestIndices(items: seq<WorkItem>): set<nat>
  {
    set i: nat | i < |items| && items[i].MergeRequest?
  }

  /** `total_items_count(user)`: the issues and merge requests the viewer can see. */
  function TotalItemsCount(team: Team, items: seq<WorkItem>, v: Viewer): (n: nat)
    ensures n <= |items|
  {
    |VisibleItems(team, items, v)|
  }

  /** `closed_items_count(user)`: the same items, restricted to the closed ones. */
  function ClosedItemsCount(team: Team, items: seq<WorkItem>, v: Viewer): (n: nat)
    ensures n <= TotalItemsCount(team, items, v)
  {
    |ClosedOf(VisibleItems(team, items, v))|
  }

  /**
   * `percent_complete(user)`: the integer percentage (rounded down) of the
   * visible items that are closed; 0 when the viewer sees nothing.
   */
  function PercentComplete(team: Team, items: seq<WorkItem>, v: Viewer): (p: nat)
    ensures TotalItemsCount(team, items, v) == 0 ==> p == 0
    ensures TotalItemsCount(team, items, v) > 0 ==>
              p * TotalItemsCount(team, items, v) <= 100 * ClosedItemsCount(team, items, v)
              < (p + 1) * TotalItemsCount(team, items, v)
    ensures p <= 100
  {
    var total := TotalItemsCount(team, items, v);
    var closed := ClosedItemsCount(team, items, v);
    if total == 0 then 0
    else
      FloorPercent(closed, total);
      100 * closed / total
  }

  /**
   * `complete?(user)`: the viewer sees at least one item and every item the
   * viewer sees is closed. With nothing visible the answer is false.
   */
  function Complete(team: Team, items: seq<WorkItem>, v: Viewer): (r: bool)
    ensures r <==> (exists it :: it in items && CanSee(team, v, it)) &&
                   forall it :: it in items && CanSee(team, v, it) ==> IsClosed(it)
  {
    VisibleItemsMembers(team, items, v);
    ClosedOfMembers(VisibleItems(team, items, v));
    AllClosedIffCountsEqual(VisibleItems(team, items, v));
    TotalItemsCount(team, items, v) > 0 && ClosedItemsCount(team, items, v) == TotalItemsCount(team, items, v)
  }

  /** The visible items are exactly the milestone's items that the viewer can see. */
  lemma {:induction false} VisibleItemsMembers(team: Team, items: seq<WorkItem>, v: Viewer)
    ensures forall it :: it in VisibleItems(team, items, v) <==> it in items && CanSee(team, v, it)
  {
    if items != [] {
      var p := items[..|items| - 1];
      VisibleItemsMembers(team, p, v);
      assert items == p + [items[|items| - 1]];
    }
  }

  /** The closed items of `s` are exactly its members that are closed. */
  lemma {:induction false} ClosedOfMembers(s: seq<WorkItem>)
    ensures forall it :: it in ClosedOf(s) <==> it in s && IsClosed(it)
  {
    if s != [] {
      var p := s[..|s| - 1];
      ClosedOfMembers(p);
      assert s == p + [s[|s| - 1]];
    }
  }

  // ----- lemmas behind the contracts -----

  lemma FloorPercent(closed: nat, total: nat)
    requires 0 < total && closed <= total
    ensures var p := 100 * closed / total;
      p * total <= 100 * closed < (p + 1) * total && p <= 100
  {
  }

  lemma {:induction false} ClosedOfAppend(a: seq<WorkItem>, b: seq<WorkItem>)
    ensures ClosedOf(a + b) == ClosedOf(a) + ClosedOf(b)
    decreases |b|
  {
    if b == [] {
      assert a + b == a;
    } else {
      var b' := b[..|b| - 1];
      assert (a + b)[..|a + b| - 1] == a + b';
      ClosedOfAppend(a, b');
    }
  }

  /**
   * The counts against their reference definitions: the number of positions
   * holding an item the viewer can see, and of those holding a closed one.
   */
  lemma CountsMatchIndices(team: Team, items: seq<WorkItem>, v: Viewer)
    ensures TotalItemsCount(team, items, v) == |VisibleIndices(team, items, v)|
    ensures ClosedItemsCount(team, items, v) == |ClosedVisibleIndices(team, items, v)|
  {
    VisibleCountMatches(team, items, v);
    ClosedCountMatches(team, items, v);
  }

  /** The positions seen in `items` are those seen in its prefix, plus possibly the last one. */
  lemma VisibleIndicesSnoc(team: Team, items: seq<WorkItem>, v: Viewer)
    requires items != []
    ensures var n := |items| - 1;
      VisibleIndices(team, items, v) ==
      VisibleIndices(team, items[..n], v) + (if CanSee(team, v, items[n]) then {n} else {})
    ensures var n := |items| - 1;
      ClosedVisibleIndices(team, items, v) ==
      ClosedVisibleIndices(team, items[..n], v) + (if CanSee(team, v, items[n]) && IsClosed(items[n]) then {n} else {})
  {
  }

  lemma {:induction false} VisibleCountMatches(team: Team, items: seq<WorkItem>, v: Viewer)
    ensures |VisibleItems(team, items, v)| == |VisibleIndices(team, items, v)|
    decreases |items|
  {
    if items == [] {
      assert VisibleIndices(team, items, v) == {};
    } else {
      var n := |items| - 1;
      VisibleCountMatches(team, items[..n], v);
      VisibleIndicesSnoc(team, items, v);
      assert n !in VisibleIndices(team, items[..n], v);
    }
  }

  lemma {:induction false} ClosedCountMatches(team: Team, items: seq<WorkItem>, v: Viewer)
    ensures |ClosedOf(VisibleItems(team, items, v))| == |ClosedVisibleIndices(team, items, v)|
    decreases |items|
  {
    if items == [] {
      assert ClosedVisibleIndices(team, items, v) == {};
    } else {
      var n := |items| - 1;
      var last := items[n];
      ClosedCountMatches(team, items[..n], v);
      ClosedOfAppend(VisibleItems(team, items[..n], v), if CanSee(team, v, last) then [last] else []);
      VisibleIndicesSnoc(team, items, v);
      assert n !in ClosedVisibleIndices(team, items[..n], v);
    }
  }

  lemma {:induction false} AllClosedIffCountsEqual(s: seq<WorkItem>)
    ensures |ClosedOf(s)| == |s| <==> forall it :: it in s ==> IsClosed(it)
  {
    if s != [] {
      var p := s[..|s| - 1];
      AllClosedIffCountsEqual(p);
      assert s == p + [s[|s| - 1]];
    }
  }

  // ----- properties of the queries -----

  /**
   * A viewer who is not admin, not above guest, and neither author nor
   * assignee of any confidential item is counted exactly the non-confidential
   * items: no confidential item reaches either count.
   */
  lemma UnprivilegedCountPublicOnly(team: Team, items: seq<WorkItem>, v: Viewer)
    requires !(v.User? && v.admin) && !AboveGuest(team, v)
    requires forall i :: 0 <= i < |items| && IsConfidential(items[i]) ==>
               !IsAuthor(v, items[i]) && !IsAssignee(v, items[i])
    ensures TotalItemsCount(team, items, v) == |PublicIndices(items)|
    ensures ClosedItemsCount(team, items, v) == |ClosedPublicIndices(items)|
  {
    CountsMatchIndices(team, items, v);
    assert VisibleIndices(team, items, v) == PublicIndices(items);
    assert ClosedVisibleIndices(team, items, v) == ClosedPublicIndices(items);
  }

  /** An admin, or a member above guest, is counted every item of the milestone. */
  lemma {:induction false} PrivilegedCountAll(team: Team, items: seq<WorkItem>, v: Viewer)
    requires (v.User? && v.admin) || AboveGuest(team, v)
    ensures VisibleItems(team, items, v) == items
    ensures TotalItemsCount(team, items, v) == |items|
    ensures ClosedItemsCount(team, items, v) == |ClosedOf(items)|
  {
    if items != [] {
      PrivilegedCountAll(team, items[..|items| - 1], v);
      assert items == items[..|items| - 1] + [items[|items| - 1]];
    }
  }

  /** Merge requests are always counted: the total is the visible issues plus every merge request. */
  lemma MergeRequestsAlwaysCounted(team: Team, items: seq<WorkItem>, v: Viewer)
    ensures TotalItemsCount(team, items, v) == |VisibleIssueIndices(team, items, v)| + |MergeRequestIndices(items)|
  {
    CountsMatchIndices(team, items, v);
    assert VisibleIndices(team, items, v) == VisibleIssueIndices(team, items, v) + MergeRequestIndices(items);
    assert VisibleIssueIndices(team, items, v) * MergeRequestIndices(items) == {};
  }

  /** What one item adds to a viewer's total: 1 when the viewer can see it. */
  function Seen(team: Team, v: Viewer, it: WorkItem): nat
  {
    if CanSee(team, v, it) then 1 else 0
  }

  /** What one item adds to a viewer's closed count: 1 when the viewer can see it and it is closed. */
  function SeenClosed(team: Team, v: Viewer, it: WorkItem): nat
  {
    if CanSee(team, v, it) && IsClosed(it) then 1 else 0
  }

  /** The counts fold over the items one at a time: appending an item adds at most one to each. */
  lemma CountsSnoc(team: Team, p: seq<WorkItem>, x: WorkItem, v: Viewer)
    ensures TotalItemsCount(team, p + [x], v) == TotalItemsCount(team, p, v) + Seen(team, v, x)
    ensures ClosedItemsCount(team, p + [x], v) == ClosedItemsCount(team, p, v) + SeenClosed(team, v, x)
  {
    assert (p + [x])[..|p|] == p;
    ClosedOfAppend(VisibleItems(team, p, v), if CanSee(team, v, x) then [x] else []);
  }

  /** The counts of two runs of items put together are the sums of their counts. */
  lemma {:induction false} CountsAppend(team: Team, a: seq<WorkItem>, b: seq<WorkItem>, v: Viewer)
    ensures TotalItemsCount(team, a + b, v) == TotalItemsCount(team, a, v) + TotalItemsCount(team, b, v)
    ensures ClosedItemsCount(team, a + b, v) == ClosedItemsCount(team, a, v) + ClosedItemsCount(team, b, v)
    decreases |b|
  {
    if b == [] {
      assert a + b == a;
    } else {
      var b' := b[..|b| - 1];
      var x := b[|b| - 1];
      CountsAppend(team, a, b', v);
      assert a + b == (a + b') + [x];
      assert b == b' + [x];
      CountsSnoc(team, a + b', x, v);
      CountsSnoc(team, b', x, v);
    }
  }

  /** Closing an item leaves every viewer's total unchanged. */
  lemma CloseKeepsTotal(team: Team, items: seq<WorkItem>, k: nat, v: Viewer)
    requires k < |items|
    ensures TotalItemsCount(team, items[k := Close(items[k])], v) == TotalItemsCount(team, items, v)
  {
    var items' := items[k := Close(items[k])];
    CountsMatchIndices(team, items, v);
    CountsMatchIndices(team, items', v);
    CloseKeepsVisibility(team, v, items[k]);
    assert VisibleIndices(team, items', v) == VisibleIndices(team, items, v);
  }

  /**
   * Closing an item adds one to a viewer's closed count exactly when the
   * viewer can see it and it was open; otherwise the count stays.
   */
  lemma CloseCountsOnce(team: Team, items: seq<WorkItem>, k: nat, v: Viewer)
    requires k < |items|
    ensures ClosedItemsCount(team, items[k := Close(items[k])], v) ==
            ClosedItemsCount(team, items, v) + (if CanSee(team, v, items[k]) && !IsClosed(items[k]) then 1 else 0)
  {
    var items' := items[k := Close(items[k])];
    var before := ClosedVisibleIndices(team, items, v);
    var added := if CanSee(team, v, items[k]) && !IsClosed(items[k]) then {k} else {};
    CountsMatchIndices(team, items, v);
    CountsMatchIndices(team, items', v);
    CloseKeepsVisibility(team, v, items[k]);
    forall i: nat | i < |items|
      ensures i in ClosedVisibleIndices(team, items', v) <==> i in before || i in added
    {
      if i != k {
        assert items'[i] == items[i];
      }
    }
    assert ClosedVisibleIndices(team, items', v) == before + added;
    assert k !in before || added == {};
  }
}
