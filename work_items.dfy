/**
 * The records a milestone aggregates: issues and merge requests, the users
 * who look at them, and the roles a project team grants.
 */
module WorkItems {

  datatype Option<T> = None | Some(value: T)

  type UserId = nat

  /** An item is either open or closed; closing is the only transition modelled. */
  datatype State = Opened | Closed

  /**
   * A work item of a milestone. Only issues carry a confidentiality flag:
   * a merge request is never confidential.
   */
  datatype WorkItem =
    | Issue(state: State, confidential: bool, author: UserId, assignees: set<UserId>)
    | MergeRequest(state: State, author: UserId, assignees: set<UserId>)

  /** Who asks: nobody signed in, or a user, who may be a global admin. */
  datatype Viewer = Anonymous | User(id: UserId, admin: bool)

  /** The roles a project team grants, lowest first; `NoAccess` is a non-member. */
  datatype AccessLevel = NoAccess | Guest | Developer

  /** The project team: the role of every user added to it. */
  type Team = map<UserId, AccessLevel>

  function Rank(level: AccessLevel): nat
  {
    match level
    case NoAccess => 0
    case Guest => 1
    case Developer => 2
  }

  /** The role the team grants a viewer; anonymous viewers and non-members get `NoAccess`. */
  function AccessOf(team: Team, v: Viewer): AccessLevel
  {
    if v.User? && v.id in team then team[v.id] else NoAccess
  }

  /** Project members with a role strictly above guest. */
  predicate AboveGuest(team: Team, v: Viewer)
  {
    Rank(AccessOf(team, v)) > Rank(Guest)
  }

  predicate IsConfidential(it: WorkItem)
  {
    it.Issue? && it.confidential
  }

  predicate IsClosed(it: WorkItem)
  {
    it.state == Closed
  }

  predicate IsAuthor(v: Viewer, it: WorkItem)
  {
    v.User? && v.id == it.author
  }

  predicate IsAssignee(v: Viewer, it: WorkItem)
  {
    v.User? && v.id in it.assignees
  }

  /** `issue.close` / `merge_request.close`: the item with its state set to closed. */
  function Close(it: WorkItem): (r: WorkItem)
    ensures IsClosed(r)
    ensures r.Issue? == it.Issue? && r.author == it.author && r.assignees == it.assignees
    ensures IsConfidential(r) == IsConfidential(it)
    ensures IsClosed(it) ==> r == it
  {
    match it
    case Issue(_, c, a, s) => Issue(Closed, c, a, s)
    case MergeRequest(_, a, s) => MergeRequest(Closed, a, s)
  }
}
