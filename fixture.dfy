/**
 * The milestone of the scenario: one project, ten items, six users, and the
 * numbers each user is shown.
 */
module Fixture {
  import opened WorkItems
  import opened Visibility
  import opened Aggregation
  import opened Schedule
  import opened Milestones

  // The users of the scenario.
  const AuthorId: UserId := 1
  const AssigneeId: UserId := 2
  const NonMemberId: UserId := 3
  const MemberId: UserId := 4
  const GuestId: UserId := 5
  const AdminId: UserId := 6

  const Author: Viewer := User(AuthorId, false)
  const Assignee: Viewer := User(AssigneeId, false)
  const NonMember: Viewer := User(NonMemberId, false)
  const Member: Viewer := User(MemberId, false)
  const GuestUser: Viewer := User(GuestId, false)
  const Admin: Viewer := User(AdminId, true)

  /** The team after the member joins as developer and the guest as guest. */
  const FixtureTeam: Team := map[MemberId := Developer, GuestId := Guest]

  // The milestone's items, in creation order. An item created without an
  // explicit author is given, by choice of this model, an author of its own
  // (users 101 to 107) who is never a viewer.
  const PlainIssue: WorkItem := Issue(Opened, false, 101, {})  // issue
  const SecurityIssue1: WorkItem := Issue(Opened, true, AuthorId, {})  // security_issue_1
  const SecurityIssue2: WorkItem := Issue(Opened, true, 102, {AssigneeId})  // security_issue_2
  const ClosedIssue1: WorkItem := Issue(Closed, false, 103, {})  // closed_issue_1
  const ClosedIssue2: WorkItem := Issue(Closed, false, 104, {})  // closed_issue_2
  const ClosedSecurityIssue1: WorkItem := Issue(Closed, true, AuthorId, {})  // closed_security_issue_1
  const ClosedSecurityIssue2: WorkItem := Issue(Closed, true, 105, {AssigneeId})  // closed_security_issue_2
  const ClosedSecurityIssue3: WorkItem := Issue(Closed, true, AuthorId, {})  // closed_security_issue_3
  const ClosedSecurityIssue4: WorkItem := Issue(Closed, true, 106, {AssigneeId})  // closed_security_issue_4
  const OpenMergeRequest: WorkItem := MergeRequest(Opened, 107, {})  // merge_request

  /**
   * Ten items: nine issues, then the merge request. Apart from the plain
   * issue and the merge request, every open item is confidential.
   */
  function Items(): (r: seq<WorkItem>)
    ensures |r| == 10
    ensures forall i :: 0 <= i < 9 ==> r[i].Issue?
    ensures r[9].MergeRequest?
    ensures forall i :: 0 <= i < |r| && !IsClosed(r[i]) && !IsConfidential(r[i]) ==> i == 0 || i == 9
  {
    [ PlainIssue, SecurityIssue1, SecurityIssue2, ClosedIssue1, ClosedIssue2,
      ClosedSecurityIssue1, ClosedSecurityIssue2, ClosedSecurityIssue3, ClosedSecurityIssue4, OpenMergeRequest ]
  }

  /** Positions of the two items the completion scenario closes. */
  const PlainIssueAt: nat := 0
  const MergeRequestAt: nat := 9

  /** The total of five items, item by item. */
  lemma TotalOfFive(team: Team, s: seq<WorkItem>, v: Viewer)
    requires |s| == 5
    ensures TotalItemsCount(team, s, v) == Seen(team, v, s[0]) + Seen(team, v, s[1]) + Seen(team, v, s[2]) + Seen(team, v, s[3]) + Seen(team, v, s[4])
  {
    var s0, s1, s2, s3, s4, s5 := s[..0], s[..1], s[..2], s[..3], s[..4], s[..5];
    assert s0 == [];
    assert s1 == s0 + [s[0]];
    CountsSnoc(team, s0, s[0], v);
    assert s2 == s1 + [s[1]];
    CountsSnoc(team, s1, s[1], v);
    assert s3 == s2 + [s[2]];
    CountsSnoc(team, s2, s[2], v);
    assert s4 == s3 + [s[3]];
    CountsSnoc(team, s3, s[3], v);
    assert s5 == s4 + [s[4]];
    CountsSnoc(team, s4, s[4], v);
    assert s5 == s;
  }

  /** The closed count of five items, item by item. */
  lemma ClosedOfFive(team: Team, s: seq<WorkItem>, v: Viewer)
    requires |s| == 5
    ensures ClosedItemsCount(team, s, v) == SeenClosed(team, v, s[0]) + SeenClosed(team, v, s[1]) + SeenClosed(team, v, s[2]) + SeenClosed(team, v, s[3]) + SeenClosed(team, v, s[4])
  {
    var s0, s1, s2, s3, s4, s5 := s[..0], s[..1], s[..2], s[..3], s[..4], s[..5];
    assert s0 == [];
    assert s1 == s0 + [s[0]];
    CountsSnoc(team, s0, s[0], v);
    assert s2 == s1 + [s[1]];
    CountsSnoc(team, s1, s[1], v);
    assert s3 == s2 + [s[2]];
    CountsSnoc(team, s2, s[2], v);
    assert s4 == s3 + [s[3]];
    CountsSnoc(team, s3, s[3], v);
    assert s5 == s4 + [s[4]];
    CountsSnoc(team, s4, s[4], v);
    assert s5 == s;
  }

  /** The fixture's total for one viewer, item by item. */
  lemma FixtureTotal(v: Viewer)
    ensures var s := Items();
      TotalItemsCount(FixtureTeam, s, v) ==
        Seen(FixtureTeam, v, s[0]) + Seen(FixtureTeam, v, s[1]) + Seen(FixtureTeam, v, s[2]) + Seen(FixtureTeam, v, s[3]) + Seen(FixtureTeam, v, s[4])
        + Seen(FixtureTeam, v, s[5]) + Seen(FixtureTeam, v, s[6]) + Seen(FixtureTeam, v, s[7]) + Seen(FixtureTeam, v, s[8]) + Seen(FixtureTeam, v, s[9])
  {
    var s := Items();
    assert s == s[..5] + s[5..];
    CountsAppend(FixtureTeam, s[..5], s[5..], v);
    TotalOfFive(FixtureTeam, s[..5], v);
    TotalOfFive(FixtureTeam, s[5..], v);
  }

  /** The fixture's closed count for one viewer, item by item. */
  lemma FixtureClosed(v: Viewer)
    ensures var s := Items();
      ClosedItemsCount(FixtureTeam, s, v) ==
        SeenClosed(FixtureTeam, v, s[0]) + SeenClosed(FixtureTeam, v, s[1]) + SeenClosed(FixtureTeam, v, s[2]) + SeenClosed(FixtureTeam, v, s[3]) + SeenClosed(FixtureTeam, v, s[4])
        + SeenClosed(FixtureTeam, v, s[5]) + SeenClosed(FixtureTeam, v, s[6]) + SeenClosed(FixtureTeam, v, s[7]) + SeenClosed(FixtureTeam, v, s[8]) + SeenClosed(FixtureTeam, v, s[9])
  {
    var s := Items();
    assert s == s[..5] + s[5..];
    CountsAppend(FixtureTeam, s[..5], s[5..], v);
    ClosedOfFive(FixtureTeam, s[..5], v);
    ClosedOfFive(FixtureTeam, s[5..], v);
  }

  lemma NonMemberAndGuestCounts()
    ensures ClosedItemsCount(FixtureTeam, Items(), NonMember) == 2
    ensures TotalItemsCount(FixtureTeam, Items(), NonMember) == 4
    ensures ClosedItemsCount(FixtureTeam, Items(), GuestUser) == 2
    ensures TotalItemsCount(FixtureTeam, Items(), GuestUser) == 4
  {
    FixtureTotal(NonMember);
    FixtureClosed(NonMember);
    FixtureTotal(GuestUser);
    FixtureClosed(GuestUser);
  }

  /** An author sees the confidential issues they wrote: one open, two closed. */
  lemma AuthorCounts()
    ensures ClosedItemsCount(FixtureTeam, Items(), Author) == 4
    ensures TotalItemsCount(FixtureTeam, Items(), Author) == 7
  {
    FixtureTotal(Author);
    FixtureClosed(Author);
  }

  /** An assignee sees the confidential issues assigned to them: one open, two closed. */
  lemma AssigneeCounts()
    ensures ClosedItemsCount(FixtureTeam, Items(), Assignee) == 4
    ensures TotalItemsCount(FixtureTeam, Items(), Assignee) == 7
  {
    FixtureTotal(Assignee);
    FixtureClosed(Assignee);
  }

  /** A developer-role member and an admin who is no member both see all ten items. */
  lemma MemberAndAdminCounts()
    ensures ClosedItemsCount(FixtureTeam, Items(), Member) == 6
    ensures TotalItemsCount(FixtureTeam, Items(), Member) == 10
    ensures ClosedItemsCount(FixtureTeam, Items(), Admin) == 6
    ensures TotalItemsCount(FixtureTeam, Items(), Admin) == 10
  {
    FixtureTotal(Member);
    FixtureClosed(Member);
    FixtureTotal(Admin);
    FixtureClosed(Admin);
  }

  /** 2 of 4 is 50%, 4 of 7 is 57% and 6 of 10 is 60%. */
  lemma PercentCompleteValues()
    ensures PercentComplete(FixtureTeam, Items(), NonMember) == 50
    ensures PercentComplete(FixtureTeam, Items(), GuestUser) == 50
    ensures PercentComplete(FixtureTeam, Items(), Author) == 57
    ensures PercentComplete(FixtureTeam, Items(), Assignee) == 57
    ensures PercentComplete(FixtureTeam, Items(), Member) == 60
    ensures PercentComplete(FixtureTeam, Items(), Admin) == 60
  {
    NonMemberAndGuestCounts();
    AuthorCounts();
    AssigneeCounts();
    MemberAndAdminCounts();
  }

  /**
   * The set-up and the completion scenario: the member joins as developer and
   * the guest as guest; the milestone is not complete for a non-member while
   * the plain issue and the merge request are open, and is once both are closed.
   */
  method CompletionScenario() returns (team: Team, before: bool, after: bool)
    ensures team == FixtureTeam
    ensures !before && after
  {
    var project := new ProjectTeam();
    project.AddUser(MemberId, Developer);
    project.AddUser(GuestId, Guest);
    team := project.members;
    var milestone := new Milestone(Items(), None, None);
    NonMemberAndGuestCounts();
    before := Complete(team, milestone.items, NonMember);
    milestone.CloseItem(PlainIssueAt);
    milestone.CloseItem(MergeRequestAt);
    after := Complete(team, milestone.items, NonMember);
  }

  /** Remaining days: none without a due date, none once it is 2 days past, 2 when it is 2 days ahead. */
  lemma RemainingDaysValues(today: int)
    ensures RemainingDays(None, today) == 0
    ensures RemainingDays(Some(today - 2), today) == 0
    ensures RemainingDays(Some(today + 2), today) == 2
  {
  }

  /** Elapsed days: none without a start date, none while it is 2 days ahead, 2 when it was 2 days ago. */
  lemma ElapsedDaysValues(today: int)
    ensures ElapsedDays(None, today) == 0
    ensures ElapsedDays(Some(today + 2), today) == 0
    ensures ElapsedDays(Some(today - 2), today) == 2
  {
  }
}
