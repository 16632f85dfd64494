/**
 * Who may see a work item. Everything is visible except a confidential issue,
 * which only an admin, its author, its assignees and project members above
 * guest may see.
 */
module Visibility {
  import opened WorkItems

  /**
   * The rules in order; the first that applies decides. Since every rule
   * grants, the order does not matter: the viewer sees the item exactly when
   * one of the grants holds.
   */
  predicate CanSee(team: Team, v: Viewer, it: WorkItem)
    ensures CanSee(team, v, it) <==>
              !IsConfidential(it) || (v.User? && v.admin) || IsAuthor(v, it) || IsAssignee(v, it) || AboveGuest(team, v)
  {
    if !IsConfidential(it) then true
    else if v.User? && v.admin then true
    else if IsAuthor(v, it) then true
    else if IsAssignee(v, it) then true
    else AboveGuest(team, v)
  }

  /** Non-confidential items, which include every merge request, are visible to everyone. */
  lemma PublicItemsVisibleToAll(team: Team, v: Viewer, it: WorkItem)
    requires !IsConfidential(it)
    ensures CanSee(team, v, it)
  {
  }

  /** Admins, and members above guest, see every item. */
  lemma PrivilegedSeeAll(team: Team, v: Viewer, it: WorkItem)
    requires (v.User? && v.admin) || AboveGuest(team, v)
    ensures CanSee(team, v, it)
  {
  }

  /** Authorship or assignment alone grants sight of a confidential issue. */
  lemma InvolvedSeeConfidential(team: Team, v: Viewer, it: WorkItem)
    requires IsAuthor(v, it) || IsAssignee(v, it)
    ensures CanSee(team, v, it)
  {
  }

  /**
   * The security property: a confidential item is seen only through admin
   * rights, authorship, assignment or a role above guest; so a guest-role
   * member is no better off than a non-member.
   */
  lemma ConfidentialNeedsGrant(team: Team, v: Viewer, it: WorkItem)
    requires IsConfidential(it)
    ensures CanSee(team, v, it) <==>
              (v.User? && v.admin) || IsAuthor(v, it) || IsAssignee(v, it) || Rank(AccessOf(team, v)) > Rank(Guest)
  {
  }

  /**
   * A signed-in user who is not an admin, holds no role in the team, and
   * neither wrote nor is assigned the item, sees it exactly when it is not
   * confidential.
   */
  lemma UninvolvedNonMemberSeesOnlyPublic(team: Team, u: UserId, it: WorkItem)
    requires u !in team && u != it.author && u !in it.assignees
    ensures CanSee(team, User(u, false), it) <==> !IsConfidential(it)
  {
  }

  /** A guest role grants nothing: a guest sees what the same user sees with no role at all. */
  lemma GuestNoBetterThanNonMember(team: Team, u: UserId, admin: bool, it: WorkItem)
    ensures CanSee(team[u := Guest], User(u, admin), it) == CanSee(team - {u}, User(u, admin), it)
  {
  }

  /** An anonymous viewer sees exactly the non-confidential items. */
  lemma AnonymousSeesOnlyPublic(team: Team, it: WorkItem)
    ensures CanSee(team, Anonymous, it) <==> !IsConfidential(it)
  {
  }

  /** Visibility does not depend on whether the item is open or closed. */
  lemma CloseKeepsVisibility(team: Team, v: Viewer, it: WorkItem)
    ensures CanSee(team, v, Close(it)) == CanSee(team, v, it)
  {
  }
}
