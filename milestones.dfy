/**
 * The mutable state the scenario changes: a project team that users are added
 * to, and a milestone whose items get closed between queries.
 */
module Milestones {
  import opened WorkItems
  import opened Visibility
  import opened Aggregation

  /** A project's team: `project.team << [user, role]` adds or re-roles a user. */
  class ProjectTeam {
    var members: Team

    constructor ()
      ensures members == map[]
    {
      members := map[];
    }

    method AddUser(user: UserId, level: AccessLevel)
      modifies this
      ensures members == old(members)[user := level]
    {
      members := members[user := level];
    }
  }

  /** A milestone: its items and its optional start and due days. */
  class Milestone {
    var items: seq<WorkItem>
    var startDate: Option<int>
    var dueDate: Option<int>

    constructor (items: seq<WorkItem>, startDate: Option<int>, dueDate: Option<int>)
      ensures this.items == items && this.startDate == startDate && this.dueDate == dueDate
    {
      this.items := items;
      this.startDate := startDate;
      this.dueDate := dueDate;
    }

    /**
     * Closing one of the milestone's items: that item becomes closed, nothing
     * else changes, so no viewer's total moves and a viewer's closed count
     * grows by one exactly when the item was open and visible to them.
     */
    method CloseItem(k: nat)
      requires k < |items|
      modifies this
      ensures items == old(items)[k := Close(old(items)[k])]
      ensures startDate == old(startDate) && dueDate == old(dueDate)
      ensures forall team, v :: TotalItemsCount(team, items, v) == TotalItemsCount(team, old(items), v)
      ensures forall team, v :: ClosedItemsCount(team, items, v) ==
                ClosedItemsCount(team, old(items), v) +
                (if CanSee(team, v, old(items)[k]) && !IsClosed(old(items)[k]) then 1 else 0)
    {
      var was := items;
      items := items[k := Close(items[k])];
      forall team: Team, v: Viewer
        ensures TotalItemsCount(team, items, v) == TotalItemsCount(team, was, v)
        ensures ClosedItemsCount(team, items, v) ==
                ClosedItemsCount(team, was, v) + (if CanSee(team, v, was[k]) && !IsClosed(was[k]) then 1 else 0)
      {
        CloseKeepsTotal(team, was, k, v);
        CloseCountsOnce(team, was, k, v);
      }
    }
  }
}
