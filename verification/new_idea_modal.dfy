/**
 * The new-idea dialog's submit handler: all three fields must be non-blank;
 * an accepted idea is handed on trimmed, and the form is cleared unless the
 * hand-over throws.
 */
module NewIdea {
  import opened Wrappers
  import opened Ascii

  datatype Idea = Idea(title: string, description: string, author: string)

  /** The toasts the handler can show. */
  datatype Toast = MissingFields | SubmitFailed

  /** The idea handed to `onSubmit`, or None when a field is blank. */
  function Submission(title: string, description: string, author: string): (r: Option<Idea>)
    ensures r.Some? <==> !AllWhitespace(title) && !AllWhitespace(description) && !AllWhitespace(author)
    // the fields are handed on trimmed, in the order title, description, author
    ensures r.Some? ==> r.value == Idea(Trim(title), Trim(description), Trim(author))
    ensures r.Some? ==> r.value.title != "" && r.value.description != "" && r.value.author != ""
    ensures r.Some? ==> IsTrimmed(r.value.title) && IsTrimmed(r.value.description) && IsTrimmed(r.value.author)
  {
    BlankIffAllWhitespace(title);
    BlankIffAllWhitespace(description);
    BlankIffAllWhitespace(author);
    if IsBlank(title) || IsBlank(description) || IsBlank(author) then None
    else Some(Idea(Trim(title), Trim(description), Trim(author)))
  }

  /** Submitting an accepted idea's own fields again yields the same idea. */
  lemma SubmissionIsIdempotent(title: string, description: string, author: string)
    requires Submission(title, description, author).Some?
    ensures var idea := Submission(title, description, author).value;
      Submission(idea.title, idea.description, idea.author) == Some(idea)
  {
    var idea := Submission(title, description, author).value;
    TrimOfTrimmed(idea.title);
    TrimOfTrimmed(idea.description);
    TrimOfTrimmed(idea.author);
  }

  class NewIdeaForm {
    var title: string
    var description: string
    var author: string

    constructor ()
      ensures title == "" && description == "" && author == ""
    {
      title, description, author := "", "", "";
    }

    /**
     * `handleSubmit`; `onSubmitThrows` says whether the `onSubmit` callback
     * throws. `submitted` is what `onSubmit` was called with.
     */
    method HandleSubmit(onSubmitThrows: bool) returns (submitted: Option<Idea>, toast: Option<Toast>)
      modifies this
      ensures submitted == Submission(old(title), old(description), old(author))
      ensures submitted.None? ==> toast == Some(MissingFields)
      ensures submitted.Some? ==> toast == (if onSubmitThrows then Some(SubmitFailed) else None)
      // the form is cleared exactly when the idea was handed over without error
      ensures if submitted.Some? && !onSubmitThrows then title == "" && description == "" && author == ""
        else title == old(title) && description == old(description) && author == old(author)
    {
      if IsBlank(title) || IsBlank(description) || IsBlank(author) {
        return None, Some(MissingFields);
      }
      submitted := Some(Idea(Trim(title), Trim(description), Trim(author)));
      if onSubmitThrows {
        toast := Some(SubmitFailed);
      } else {
        title := "";
        description := "";
        author := "";
        toast := None;
      }
    }
  }
}
