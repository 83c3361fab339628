/**
 * The comment form's submit handler: the comment and the author must both be
 * non-blank; they are handed on as typed (not trimmed) and the form is
 * cleared.
 */
module CommentForms {
  import opened Wrappers
  import opened Ascii
  import opened Projects

  /** The comment handed on, or None when a field is blank. */
  function CommentSubmission(comment: string, author: string): (r: Option<CommentDraft>)
    ensures r.Some? <==> !AllWhitespace(comment) && !AllWhitespace(author)
    ensures r.Some? ==> r.value.author == author && r.value.content == comment
  {
    BlankIffAllWhitespace(comment);
    BlankIffAllWhitespace(author);
    if !IsBlank(comment) && !IsBlank(author) then Some(CommentDraft(author, comment)) else None
  }

  /** Unlike the new-idea form, the comment keeps its surrounding spaces. */
  lemma CommentKeepsSpaces()
    ensures CommentSubmission(" Nice ", "Ana") == Some(CommentDraft("Ana", " Nice "))
    ensures CommentSubmission("  ", "Ana") == None
  {
    assert !AllWhitespace(" Nice ") by { assert !IsWhitespace(" Nice "[1]); }
    assert !AllWhitespace("Ana") by { assert !IsWhitespace("Ana"[0]); }
  }

  class CommentForm {
    var comment: string
    var author: string

    constructor ()
      ensures comment == "" && author == ""
    {
      comment, author := "", "";
    }

    /** `handleSubmit`: `submitted` is what `onSubmit` was called with. */
    method HandleSubmit() returns (submitted: Option<CommentDraft>)
      modifies this
      ensures submitted == CommentSubmission(old(comment), old(author))
      ensures if submitted.Some? then comment == "" && author == ""
        else comment == old(comment) && author == old(author)
    {
      submitted := None;
      if !IsBlank(comment) && !IsBlank(author) {
        submitted := Some(CommentDraft(author, comment));
        comment := "";
        author := "";
      }
    }
  }
}
