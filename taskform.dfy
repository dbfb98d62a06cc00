/** `TaskForm`: the two input fields, the submitting flag, the guard of
    `handleSubmit` and the rule that disables the submit button. Submitting
    is split at its `await`: `Submit` runs up to the call of `onSubmit` and
    says whether and with what it calls it, and `Settle` runs once that
    call has settled. */
module TaskFormState {
  import opened JsText
  import opened Ui

  class TaskForm {
    var title: string
    var description: string
    var isSubmitting: bool

    /** Both fields start empty and nothing is being submitted. */
    constructor()
      ensures title == [] && description == [] && !isSubmitting
    {
      title := [];
      description := [];
      isSubmitting := false;
    }

    /** The `disabled` rule of the submit button: disabled while a
        submission runs or while either field holds only whitespace. */
    predicate SubmitDisabled(): (r: bool)
      reads this
      ensures r <==> isSubmitting || AllWhitespace(title) || AllWhitespace(description)
    {
      TrimEmptyIffBlank(title);
      TrimEmptyIffBlank(description);
      isSubmitting || Trim(title) == [] || Trim(description) == []
    }

    /** `handleSubmit` up to its `await`: with a blank title or
        description it returns and changes nothing; otherwise it sets
        `isSubmitting` and calls `onSubmit` once with both values trimmed.
        The result is that call, if any. */
    method Submit() returns (call: SubmitCall)
      modifies this`isSubmitting
      ensures title == old(title) && description == old(description)
      ensures Trim(title) == [] || Trim(description) == [] ==>
        call == NoCall && isSubmitting == old(isSubmitting)
      ensures Trim(title) != [] && Trim(description) != [] ==>
        call == Call(Trim(title), Trim(description)) && isSubmitting
      ensures !old(SubmitDisabled()) ==> call.Call?
    {
      var t, d := Trim(title), Trim(description);
      if t == [] || d == [] {
        return NoCall;
      }
      isSubmitting := true;
      call := Call(t, d);
    }

    /** `handleSubmit` after its `await`: the fields are cleared only when
        `onSubmit` resolved, and `isSubmitting` is reset either way. */
    method Settle(outcome: Settled<()>)
      modifies this`title, this`description, this`isSubmitting
      ensures !isSubmitting
      ensures outcome.Resolved? ==> title == [] && description == []
      ensures outcome.Rejected? ==> title == old(title) && description == old(description)
    {
      if outcome.Resolved? {
        title := [];
        description := [];
      }
      isSubmitting := false;
    }
  }

  /** Whether `handleSubmit` calls `onSubmit`, and with which title and
      description. */
  datatype SubmitCall = NoCall | Call(title: string, description: string)
}
