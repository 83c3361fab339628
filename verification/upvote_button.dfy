/**
 * The upvote button's optional e-mail capture: the address is accepted when
 * it contains '@'; the capture is shown only after the user has upvoted and
 * when the caller asks for it.
 */
module Upvote {
  import opened Wrappers
  import opened Ascii

  /** `email.includes('@')`. */
  function IsEmailValid(email: string): (valid: bool)
    ensures valid <==> '@' in email
  {
    IncludesChar(email, '@');
    Includes(email, "@")
  }

  /** The e-mail section is rendered for a truthy `userHasUpvoted` (absent is falsy) and `showEmailInput`. */
  function ShowsEmailSection(userHasUpvoted: Option<bool>, showEmailInput: bool): (shown: bool)
    ensures shown ==> showEmailInput && userHasUpvoted == Some(true)
    ensures userHasUpvoted == Some(true) && showEmailInput ==> shown
  {
    userHasUpvoted.GetOr(false) && showEmailInput
  }

  /** The Submit button's `disabled` flag. */
  function SubmitDisabled(email: string): (disabled: bool)
    ensures disabled <==> '@' !in email
  {
    !IsEmailValid(email)
  }

  /** The address handed to `onEmailSubmit`, if it is called (`hasHandler`: the callback is provided). */
  function EmailSubmission(email: string, hasHandler: bool): (r: Option<string>)
    ensures r.Some? <==> hasHandler && '@' in email
    ensures r.Some? ==> r.value == email
  {
    if hasHandler && IsEmailValid(email) then Some(email) else None
  }

  /** With a handler, a click on an enabled Submit button always hands the address on, and a disabled one never could. */
  lemma EnabledSubmitSends(email: string)
    ensures !SubmitDisabled(email) <==> EmailSubmission(email, true) == Some(email)
  {
  }

  class UpvoteButton {
    var email: string

    constructor ()
      ensures email == ""
    {
      email := "";
    }

    /** `handleEmailSubmit`: `sent` is what `onEmailSubmit` was called with. */
    method HandleEmailSubmit(hasHandler: bool) returns (sent: Option<string>)
      modifies this
      ensures sent == EmailSubmission(old(email), hasHandler)
      ensures email == (if sent.Some? then "" else old(email))
    {
      sent := None;
      if hasHandler && IsEmailValid(email) {
        sent := Some(email);
        email := "";
      }
    }
  }
}
