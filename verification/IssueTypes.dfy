/** Issues, partial issues and the spread `{ ...issue, ...patch }`. */
module IssueTypes {
  import opened Basics

  datatype Status = Backlog | Todo | InProgress | InReview | Done | Blocked | Cancelled

  // The statuses the bucketed caches paginate, in cache order.
  const PAGINATED_STATUSES: seq<Status> :=
    [Backlog, Todo, InProgress, InReview, Done, Blocked, Cancelled]

  // `title` stands for every field no cache rule reads. A null field is None.
  datatype Issue = Issue(
    id: string,
    status: Status,
    position: real,
    assigneeId: Option<string>,
    assigneeType: Option<string>,
    creatorId: string,
    projectId: Option<string>,
    title: string)

  // A partial issue: None is a missing field, Some(None) a field set to null.
  datatype Patch = Patch(
    status: Option<Status>,
    position: Option<real>,
    assigneeId: Option<Option<string>>,
    assigneeType: Option<Option<string>>,
    creatorId: Option<string>,
    projectId: Option<Option<string>>,
    title: Option<string>)

  function Merge(i: Issue, p: Patch): Issue {
    Issue(i.id, p.status.GetOr(i.status), p.position.GetOr(i.position),
          p.assigneeId.GetOr(i.assigneeId), p.assigneeType.GetOr(i.assigneeType),
          p.creatorId.GetOr(i.creatorId), p.projectId.GetOr(i.projectId), p.title.GetOr(i.title))
  }

  // A whole issue seen as a patch carrying every field.
  function Whole(i: Issue): Patch {
    Patch(Some(i.status), Some(i.position), Some(i.assigneeId), Some(i.assigneeType),
          Some(i.creatorId), Some(i.projectId), Some(i.title))
  }

  // `{ ...baseIssue, ...patch }` where the base may be undefined.
  function Overlay(base: Option<Issue>, p: Patch): Patch {
    match base
    case None => p
    case Some(b) => Whole(Merge(b, p))
  }

  // Every field the patch carries already has the carried value in `i`.
  ghost predicate AlreadyIn(p: Patch, i: Issue) {
    Merge(i, p) == i
  }
}
