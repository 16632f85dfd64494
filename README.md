# Milestone progress with confidential issues

A milestone groups a project's issues and merge requests and reports how far
along it is. The reports depend on who is asking. A confidential issue counts
only for viewers allowed to see it: admins, its author, its assignees, and
project members whose role is above guest. In a public project, as in the
scenario modelled here, every other item counts for everyone:
non-confidential issues and all merge requests.

This project is a Dafny model of the milestone queries that GitLab's
`Milestoneish` test fixes, with proofs about them:

- `total_items_count(user)`, `closed_items_count(user)`,
  `percent_complete(user)` and `complete?(user)` are functions over a sequence
  of work items (module `Aggregation`). Visibility is decided per item by
  `CanSee` (module `Visibility`).
- `remaining_days` and `elapsed_days` are functions of optional due and start
  days and of today's day number (module `Schedule`).
- The two state changes in the scenario are methods on classes (module
  `Milestones`). `project.team <<` is `ProjectTeam.AddUser`. `issue.close` and
  `merge_request.close` are `Milestone.CloseItem`.
- The scenario itself is in module `Fixture`. It holds the six users, the ten
  items and the team, and proves the numbers each user is shown: 4/2/50,
  7/4/57 and 10/6/60.
- Module `WorkItems` holds the records.

Decisions the test leaves open:

- `percent_complete` rounds down. On the scenario's numbers (2/4, 4/7, 6/10)
  this gives the same values as rounding half up: 50, 57 and 60.
- If the viewer sees no items, `percent_complete` is 0 and `complete?` is
  false. The test never tries the empty case, so this is a chosen policy and
  not behaviour taken from the source.
- Dates are whole day numbers, and "today" is a parameter. A due date before
  today means the milestone has expired. A start date after today means it
  has not started.
- The test names no author for seven of its items. As a modelling choice,
  each of them gets an author of its own, numbered 101 to 107, who is never a
  viewer. This changes no count.
- A viewer who is not signed in (`Anonymous`) is treated like a signed-in
  non-member who authored and was assigned nothing: only non-confidential
  items are visible. The test has no such viewer; this is a chosen policy.

## Model

| member | source | states |
|---|---|---|
| `WorkItems.Close` | spec/models/concerns/milestoneish_spec.rb:86-87 | closing an item makes it closed; its kind, author, assignees and confidentiality stay the same; an item that is already closed is unchanged |
| `Visibility.CanSee` | spec/models/concerns/milestoneish_spec.rb:12-50 | decides whether a viewer sees an item; the rules are checked in order, and the result holds exactly when the item is not confidential, or the viewer is an admin, its author, one of its assignees, or a member above guest |
| `Visibility.PublicItemsVisibleToAll` | spec/models/concerns/milestoneish_spec.rb:12-21 | every viewer sees every non-confidential item; merge requests are never confidential, so this covers all of them |
| `Visibility.PrivilegedSeeAll` | spec/models/concerns/milestoneish_spec.rb:45-50 | admins and members above guest see every item |
| `Visibility.InvolvedSeeConfidential` | spec/models/concerns/milestoneish_spec.rb:37-42 | an issue's author and its assignees see it even when it is confidential |
| `Visibility.ConfidentialNeedsGrant` | spec/models/concerns/milestoneish_spec.rb:29-35 | a viewer sees a confidential item if and only if the viewer is an admin, its author, one of its assignees, or a member whose rank is above guest's |
| `Visibility.GuestNoBetterThanNonMember` | spec/models/concerns/milestoneish_spec.rb:33-35 | giving a user the guest role changes nothing they can see: they see exactly what the same user sees with no role in the team |
| `Visibility.UninvolvedNonMemberSeesOnlyPublic` | spec/models/concerns/milestoneish_spec.rb:29-31 | a signed-in user who is not an admin, has no team role, and neither wrote nor is assigned an item sees it exactly when it is not confidential |
| `Visibility.CloseKeepsVisibility` | spec/models/concerns/milestoneish_spec.rb:85-89 | closing an item does not change who can see it |
| `Aggregation.VisibleItems` | spec/models/concerns/milestoneish_spec.rb:54-78 | the filtered list is never longer than the milestone's item list |
| `Aggregation.VisibleItemsMembers` | spec/models/concerns/milestoneish_spec.rb:54-78 | an item is on the visible list if and only if it is one of the milestone's items and the viewer can see it |
| `Aggregation.ClosedOf` | spec/models/concerns/milestoneish_spec.rb:28-52 | restricting to closed items never makes a list longer |
| `Aggregation.ClosedOfMembers` | spec/models/concerns/milestoneish_spec.rb:28-52 | an item is on the closed list if and only if it is on the original list and is closed |
| `Aggregation.TotalItemsCount` | spec/models/concerns/milestoneish_spec.rb:54-78 | the total visible items never exceed the milestone's item count |
| `Aggregation.ClosedItemsCount` | spec/models/concerns/milestoneish_spec.rb:28-52 | the closed count never exceeds the same viewer's total |
| `Aggregation.CountsMatchIndices` | spec/models/concerns/milestoneish_spec.rb:28-78 | the total is the number of positions holding an item the viewer can see; the closed count is the number of those positions whose item is closed |
| `Aggregation.PercentComplete` | spec/models/concerns/milestoneish_spec.rb:93-116 | the result is ⌊100 · closed / total⌋: p · total ≤ 100 · closed < (p + 1) · total; it is 0 when nothing is visible; it never exceeds 100 |
| `Aggregation.Complete` | spec/models/concerns/milestoneish_spec.rb:80-90 | true if and only if the viewer sees at least one item and every visible item is closed |
| `Aggregation.AllClosedIffCountsEqual` | spec/models/concerns/milestoneish_spec.rb:80-90 | a list's closed count equals its length if and only if every item on it is closed |
| `Aggregation.UnprivilegedCountPublicOnly` | spec/models/concerns/milestoneish_spec.rb:29-35 | for a viewer who is not an admin, not above guest, and neither author nor assignee of any confidential item, the total and closed counts are exactly the non-confidential items; no confidential item is ever counted |
| `Aggregation.PrivilegedCountAll` | spec/models/concerns/milestoneish_spec.rb:45-50 | an admin or a member above guest sees the whole item list, so the total is every item and the closed count is every closed item |
| `Aggregation.MergeRequestsAlwaysCounted` | spec/models/concerns/milestoneish_spec.rb:21 | the total is the visible issues plus every merge request |
| `Aggregation.CountsSnoc` | spec/models/concerns/milestoneish_spec.rb:12-21 | adding one item to a milestone adds 1 to a viewer's total if the viewer can see it, and 1 to the closed count if it is also closed |
| `Aggregation.CountsAppend` | spec/models/concerns/milestoneish_spec.rb:12-21 | the counts of two item lists joined together are the sums of their counts |
| `Aggregation.CloseKeepsTotal` | spec/models/concerns/milestoneish_spec.rb:85-89 | closing an item leaves every viewer's total unchanged |
| `Aggregation.CloseCountsOnce` | spec/models/concerns/milestoneish_spec.rb:85-89 | closing an item adds 1 to a viewer's closed count exactly when the viewer can see it and it was open; otherwise the count stays |
| `Schedule.RemainingDays` | spec/models/concerns/milestoneish_spec.rb:119-136 | 0 when there is no due date or it is past; otherwise today plus the result is the due day |
| `Schedule.ElapsedDays` | spec/models/concerns/milestoneish_spec.rb:139-156 | 0 when there is no start date or it is in the future; otherwise the start day plus the result is today |
| `Schedule.ElapsedPlusRemaining` | spec/models/concerns/milestoneish_spec.rb:119-156 | between the start and due dates, elapsed days plus remaining days equal the milestone's whole span |
| `Schedule.RemainingCountsDown` | spec/models/concerns/milestoneish_spec.rb:126-136 | each day that passes takes one day off the remaining days, until they reach 0, where they stay |
| `Schedule.ElapsedCountsUp` | spec/models/concerns/milestoneish_spec.rb:146-156 | from the start date on, each day that passes adds one elapsed day |
| `Milestones.ProjectTeam.constructor` | spec/models/concerns/milestoneish_spec.rb:10 | a new project's team has no members |
| `Milestones.ProjectTeam.AddUser` | spec/models/concerns/milestoneish_spec.rb:23-26 | adding a user sets that user's role; every other member keeps theirs |
| `Milestones.Milestone.constructor` | spec/models/concerns/milestoneish_spec.rb:11-21 | a milestone holds the given items and the given start and due days |
| `Milestones.Milestone.CloseItem` | spec/models/concerns/milestoneish_spec.rb:85-88 | only the chosen item changes, to closed; the dates stay; no total moves; each closed count grows by one exactly when the item was open and visible to that viewer |
| `Fixture.Items` | spec/models/concerns/milestoneish_spec.rb:12-21 | the ten items in creation order: nine issues, then the merge request; apart from the plain issue (position 0) and the merge request (position 9), every open item is confidential |
| `Fixture.NonMemberAndGuestCounts` | spec/models/concerns/milestoneish_spec.rb:29-34 | a non-member and a guest-role member each get closed 2 and total 4 (lines 55-60 assert the totals) |
| `Fixture.AuthorCounts` | spec/models/concerns/milestoneish_spec.rb:37-38 | the author gets closed 4 and total 7 (lines 63-64 assert the total) |
| `Fixture.AssigneeCounts` | spec/models/concerns/milestoneish_spec.rb:41-42 | the assignee gets closed 4 and total 7 (lines 67-68 assert the total) |
| `Fixture.MemberAndAdminCounts` | spec/models/concerns/milestoneish_spec.rb:45-50 | a developer-role member and an admin who is not a member each get closed 6 and total 10 (lines 71-76 assert the totals) |
| `Fixture.PercentCompleteValues` | spec/models/concerns/milestoneish_spec.rb:93-116 | percent complete is 50 for the non-member and the guest, 57 for the author and the assignee, and 60 for the member and the admin |
| `Fixture.CompletionScenario` | spec/models/concerns/milestoneish_spec.rb:80-90 | after the set-up the team holds the developer and the guest; the milestone is not complete for the non-member, and it is complete once the plain issue and the merge request are closed |
| `Fixture.RemainingDaysValues` | spec/models/concerns/milestoneish_spec.rb:119-136 | remaining days are 0 with no due date, 0 when it was 2 days ago, and 2 when it is 2 days ahead |
| `Fixture.ElapsedDaysValues` | spec/models/concerns/milestoneish_spec.rb:139-156 | elapsed days are 0 with no start date, 0 when it is 2 days ahead, and 2 when it was 2 days ago |

## Left out

- The implementation of `Milestoneish` is not part of this model. The model follows what the test asserts.
- Persistence and test set-up are left out: database records, factories, `create` and `build_stubbed`. The model uses plain values.
- The project is public, as at line 10 of the test. Private and internal project visibility is not modelled.
- The permission model is cut down to the roles the test uses: none, guest, developer, and a global admin flag. The other project roles are left out.
- Merge requests are assumed to have the milestone's project as both source and target. Cross-project handling is left out.
- Items have only two states, open and closed. A merged merge request, or any other state, is left out because the test does not use one.
- Wall-clock time and the calendar are left out. Dates are whole day numbers and today is a parameter. Time zones, partial days and the Date/Time conversions of `2.days.ago` and `2.days.from_now` are not modelled.
- `Aggregation.PercentComplete` rounds down. Rounding half up is a different policy that gives the same values on every number the test asserts.
- `Aggregation.Complete` and `Aggregation.PercentComplete`: on a milestone where the viewer sees nothing, the values (false and 0) are a chosen policy, not behaviour the test shows.
- Caching of counts per request is left out. Every query recomputes from the current items.
