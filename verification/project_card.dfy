/**
 * The project card: a badge for the front-end statuses ('in-progress',
 * 'planned', 'consideration'), the "Add Comment" toggle, and the comment
 * submit handler, which forwards the untrimmed fields with the project's id
 * and closes the form.
 */
module ProjectCard {
  import opened Wrappers
  import opened Ascii
  import opened Projects
  import CommentForms

  const Gray := "bg-gray-500 text-white"

  function CardStatusClass(status: string): (c: string)
    ensures status == "in-progress" ==> c == "status-in-progress"
    ensures status == "planned" ==> c == "status-planned"
    ensures status == "consideration" ==> c == "status-consideration"
    ensures c == Gray <==> status !in DeclaredStatuses
  {
    match status
    case "in-progress" => "status-in-progress"
    case "planned" => "status-planned"
    case "consideration" => "status-consideration"
    case _ => Gray
  }

  function CardStatusText(status: string): (t: string)
    ensures status == "in-progress" ==> t == "In Progress"
    ensures status == "planned" ==> t == "Planned"
    ensures status == "consideration" ==> t == "Under Consideration"
    ensures status !in DeclaredStatuses ==> t == status
  {
    match status
    case "in-progress" => "In Progress"
    case "planned" => "Planned"
    case "consideration" => "Under Consideration"
    case _ => status
  }

  /**
   * Of the statuses the database stores, only 'consideration' gets a label
   * and a colour on the card; the others are shown raw and grey.
   */
  lemma StoredStatusesOnCard(s: string)
    requires s in StoredStatuses
    ensures s == "consideration" <==> CardStatusText(s) != s
    ensures s != "consideration" ==> CardStatusClass(s) == Gray
  {
  }

  /** The card and the comment form accept exactly the same comments. */
  lemma CardAcceptsLikeCommentForm(comment: string, author: string)
    ensures CommentForms.CommentSubmission(comment, author).Some? <==> !IsBlank(comment) && !IsBlank(author)
  {
    BlankIffAllWhitespace(comment);
    BlankIffAllWhitespace(author);
  }

  class ProjectCardState {
    const project: Project
    var comment: string
    var author: string
    var isCommenting: bool

    constructor (project: Project)
      ensures this.project == project && comment == "" && author == "" && !isCommenting
    {
      this.project := project;
      comment, author, isCommenting := "", "", false;
    }

    /** The "Add Comment" / "Cancel" button. */
    method ToggleCommenting()
      modifies this
      ensures isCommenting == !old(isCommenting)
      ensures comment == old(comment) && author == old(author)
    {
      isCommenting := !isCommenting;
    }

    /**
     * `handleSubmitComment`: `added` is the draft `onAddComment` was called
     * with for this project's id.
     */
    method HandleSubmitComment() returns (added: Option<(string, CommentDraft)>)
      modifies this
      ensures added.Some? <==> CommentForms.CommentSubmission(old(comment), old(author)).Some?
      ensures added.Some? ==> added.value == (project.id, CommentDraft(old(author), old(comment)))
      ensures if added.Some? then comment == "" && author == "" && !isCommenting
        else comment == old(comment) && author == old(author) && isCommenting == old(isCommenting)
    {
      added := None;
      if !IsBlank(comment) && !IsBlank(author) {
        added := Some((project.id, CommentDraft(author, comment)));
        comment := "";
        author := "";
        isCommenting := false;
      }
    }
  }
}
