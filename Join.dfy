/** The "Get in Touch" contact form of the join section, with its simulated
    submission. */
module Join {

  const BlankMessage: map<string, string> := map[
    "name" := "", "email" := "", "interest" := "", "message" := ""]

  /** `pending` counts the completion callbacks a submit has scheduled and
      that have not run yet. */
  class ContactForm {
    var formData: map<string, string>
    var isSubmitting: bool
    var isSubmitted: bool
    ghost var pending: nat

    ghost predicate Valid()
      reads this
    {
      && pending <= 1
      && (pending == 1 <==> isSubmitting)
      && !(isSubmitting && isSubmitted)
    }

    constructor ()
      ensures Valid()
      ensures formData == BlankMessage && !isSubmitting && !isSubmitted && pending == 0
    {
      formData := BlankMessage;
      isSubmitting := false;
      isSubmitted := false;
      pending := 0;
    }

    /** `handleChange`: only the named field changes. */
    method HandleChange(name: string, value: string)
      requires Valid()
      modifies this
      ensures Valid()
      ensures formData == old(formData)[name := value]
      ensures isSubmitting == old(isSubmitting) && isSubmitted == old(isSubmitted)
      ensures pending == old(pending)
    {
      formData := formData[name := value];
    }

    /** `handleSubmit`: starts the simulated submission. The form is shown
        only while not submitted and its button is disabled while
        submitting. */
    method HandleSubmit()
      requires Valid()
      requires !isSubmitting && !isSubmitted
      modifies this
      ensures Valid()
      ensures isSubmitting && !isSubmitted && pending == 1
      ensures formData == old(formData)
    {
      isSubmitting := true;
      pending := pending + 1;
    }

    /** The body of the `setTimeout` callback: the submission ends, the
        thank-you panel shows and the four fields are cleared. */
    method CompleteSubmission()
      requires Valid()
      requires pending > 0
      modifies this
      ensures Valid()
      ensures !isSubmitting && isSubmitted && pending == 0
      ensures formData == BlankMessage
    {
      isSubmitting := false;
      isSubmitted := true;
      formData := BlankMessage;
      pending := pending - 1;
    }

    /** "Send Another Message": only `isSubmitted` changes. */
    method SendAnother()
      requires Valid()
      modifies this
      ensures Valid()
      ensures !isSubmitted
      ensures isSubmitting == old(isSubmitting) && pending == old(pending)
      ensures formData == old(formData)
    {
      isSubmitted := false;
    }
  }
}
