/**
 * The roadmap's shared records: a project (an idea on the board) with its
 * comments, and the two status vocabularies the code base uses.
 */
module Projects {
  import opened Wrappers

  datatype Comment = Comment(id: string, author: string, content: string, createdAt: string)

  /** What a comment form submits: a comment without its `id` and `createdAt`. */
  datatype CommentDraft = CommentDraft(author: string, content: string)

  /** A project; `userHasUpvoted` is optional and `None` reads as false. */
  datatype Project = Project(
    id: string,
    title: string,
    description: string,
    status: string,
    upvotes: int,
    comments: seq<Comment>,
    userHasUpvoted: Option<bool>)

  function StatusOf(p: Project): string {
    p.status
  }

  /** The statuses the database stores for an idea. */
  const StoredStatuses: seq<string> := ["released", "ongoing", "consideration", "backlog", "submitted"]

  /** The statuses the front-end `Project` type declares. */
  const DeclaredStatuses: seq<string> := ["in-progress", "planned", "consideration"]
}
