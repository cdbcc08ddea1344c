/** The sponsors section: the colour of each sponsor's tier badge, and the
    sponsorship inquiry form with its simulated submission. */
module Sponsors {

  /** The four badge colours. */
  datatype Badge = Purple | Yellow | Gray | Amber

  /** The badge of a sponsor's tier: one colour for each of the three named
      tiers, compared case-sensitively, and amber for every other tier. */
  function TierBadge(tier: string): (b: Badge)
    ensures b == Purple <==> tier == "Platinum"
    ensures b == Yellow <==> tier == "Gold"
    ensures b == Gray <==> tier == "Silver"
    ensures b == Amber <==> tier !in {"Platinum", "Gold", "Silver"}
  {
    if tier == "Platinum" then Purple
    else if tier == "Gold" then Yellow
    else if tier == "Silver" then Gray
    else Amber
  }

  /** A sponsor card's name and tier. */
  datatype Sponsor = Sponsor(name: string, tier: string)

  const CurrentSponsors: seq<Sponsor> := [
    Sponsor("TechForward Solutions", "Platinum"), Sponsor("WebStack Inc", "Gold"),
    Sponsor("NodeFlow Systems", "Gold"), Sponsor("DevSpace Coworking", "Silver"),
    Sponsor("CodeCraft Academy", "Silver"), Sponsor("InnovateHub", "Bronze")]

  /** The cards of the current sponsors: one purple, two yellow, two gray
      badges, and the Bronze sponsor, having no colour of its own, amber. */
  lemma CurrentSponsorBadges()
    ensures forall j :: 0 <= j < |CurrentSponsors| ==>
      TierBadge(CurrentSponsors[j].tier) == [Purple, Yellow, Yellow, Gray, Gray, Amber][j]
  {
  }

  const BlankInquiry: map<string, string> := map[
    "name" := "", "company" := "", "email" := "", "phone" := "", "tier" := "", "message" := ""]

  /** The inquiry form. `pending` counts the completion callbacks a submit
      has scheduled and that have not run yet. */
  class InquiryForm {
    var formData: map<string, string>
    var isSubmitting: bool
    var isSubmitted: bool
    ghost var pending: nat

    ghost predicate Valid()
      reads this
    {
      && pending <= 1
      && (pending == 1 <==> isSubmitting)
      && !(isSubmitting && isSubmitted)
    }

    constructor ()
      ensures Valid()
      ensures formData == BlankInquiry && !isSubmitting && !isSubmitted && pending == 0
    {
      formData := BlankInquiry;
      isSubmitting := false;
      isSubmitted := false;
      pending := 0;
    }

    /** `handleChange`: only the named field changes. */
    method HandleChange(name: string, value: string)
      requires Valid()
      modifies this
      ensures Valid()
      ensures formData == old(formData)[name := value]
      ensures isSubmitting == old(isSubmitting) && isSubmitted == old(isSubmitted)
      ensures pending == old(pending)
    {
      formData := formData[name := value];
    }

    /** `handleSubmit`: starts the simulated submission and leaves the
        entered data alone. The form is shown only while not submitted and
        its button is disabled while submitting, so a second submission
        cannot be scheduled. */
    method HandleSubmit()
      requires Valid()
      requires !isSubmitting && !isSubmitted
      modifies this
      ensures Valid()
      ensures isSubmitting && !isSubmitted && pending == 1
      ensures formData == old(formData)
    {
      isSubmitting := true;
      pending := pending + 1;
    }

    /** The body of the `setTimeout` callback: the submission ends, the
        thank-you panel shows and all six fields are cleared. */
    method CompleteSubmission()
      requires Valid()
      requires pending > 0
      modifies this
      ensures Valid()
      ensures !isSubmitting && isSubmitted && pending == 0
      ensures formData == BlankInquiry
    {
      isSubmitting := false;
      isSubmitted := true;
      formData := BlankInquiry;
      pending := pending - 1;
    }

    /** "Send Another Inquiry": back to the form, which keeps whatever it
        holds. */
    method SendAnother()
      requires Valid()
      modifies this
      ensures Valid()
      ensures !isSubmitted
      ensures isSubmitting == old(isSubmitting) && pending == old(pending)
      ensures formData == old(formData)
    {
      isSubmitted := false;
    }
  }

  /** One full round: whatever was typed, after submitting and completing
      the form is blank and the thank-you panel shows; "Send Another
      Inquiry" then offers the blank form again. */
  method InquiryRound(form: InquiryForm)
    requires form.Valid() && !form.isSubmitting && !form.isSubmitted
    modifies form
    ensures form.Valid()
    ensures form.formData == BlankInquiry && !form.isSubmitting && !form.isSubmitted
  {
    form.HandleSubmit();
    form.CompleteSubmission();
    form.SendAnother();
  }
}
