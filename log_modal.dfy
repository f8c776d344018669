/** The "log communication" modal: its initial form and the request body it
    submits. */
module LogModal {
  import opened Basics
  import opened Client

  /** The form fields; every field is a string, empty when not filled in. */
  datatype Form = Form(communicationType: string, note: string, newStatus: string, nextFollowup: string)

  /** The submitted body; `None` fields are `undefined` and so not sent. */
  datatype Payload = Payload(
    leadId: int,
    communicationType: string,
    note: string,
    newStatus: Option<string>,
    nextFollowup: Option<string>)

  /** The form when the modal is created: a call with an empty note, the
      lead's status (or "new" when there is no lead or its status is empty),
      and no follow-up date. */
  function InitialForm(lead: Option<Lead>): (f: Form)
    ensures f.communicationType == "call" && f.note == "" && f.nextFollowup == ""
    ensures lead.Some? && lead.value.status != "" ==> f.newStatus == lead.value.status
    ensures lead.None? || lead.value.status == "" ==> f.newStatus == "new"
  {
    var status := if lead.Some? && lead.value.status != "" then lead.value.status else "new";
    Form("call", "", status, "")
  }

  function MakePayload(lead: Lead, form: Form): (p: Payload)
    ensures p.leadId == lead.id
    ensures p.communicationType == form.communicationType && p.note == form.note
    ensures p.newStatus.Some? <==> form.newStatus != lead.status
    ensures p.newStatus.Some? ==> p.newStatus.value == form.newStatus
    ensures p.nextFollowup.None? <==> form.nextFollowup == ""
    ensures p.nextFollowup.Some? ==> p.nextFollowup.value == form.nextFollowup
  {
    Payload(
      lead.id,
      form.communicationType,
      form.note,
      if form.newStatus != lead.status then Some(form.newStatus) else None,
      if form.nextFollowup != "" then Some(form.nextFollowup) else None)
  }

  /** Submitting the untouched form logs a call and asks for no status change
      and no follow-up; for a lead with an empty status it asks for "new". */
  lemma UntouchedFormSubmit(lead: Lead)
    ensures MakePayload(lead, InitialForm(Some(lead))).communicationType == "call"
    ensures MakePayload(lead, InitialForm(Some(lead))).nextFollowup.None?
    ensures lead.status != "" ==> MakePayload(lead, InitialForm(Some(lead))).newStatus.None?
    ensures lead.status == "" ==> MakePayload(lead, InitialForm(Some(lead))).newStatus == Some("new")
  {
  }
}
