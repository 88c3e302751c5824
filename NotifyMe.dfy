/** The notify-me form of an out-of-stock product: the status steps of
    `handleFormSubmit` and what the form shows for each status. The request is a
    parameter: whether it succeeds is given to the submit. */
module NotifyMe {
  datatype NotifyMeStatus = Idle | Submitting | Submitted | Error

  /** `formData.get('email')`: no entry, a text entry or a file. */
  datatype FormEntry = NoEntry | TextEntry(text: string) | FileEntry

  /** The body of the notify request. */
  datatype NotifyRequest = NotifyRequest(sku: string, shopDomain: string, email: string)

  class NotifyMeForm {
    const sku: string
    const storefrontDomain: string
    var status: NotifyMeStatus
    /** Every status the form has been set to, in order. */
    var statusHistory: seq<NotifyMeStatus>
    /** The requests sent. */
    var requests: seq<NotifyRequest>

    constructor(sku: string, storefrontDomain: string)
      ensures this.sku == sku && this.storefrontDomain == storefrontDomain
      ensures status == Idle && statusHistory == [] && requests == []
    {
      this.sku := sku;
      this.storefrontDomain := storefrontDomain;
      status := Idle;
      statusHistory := [];
      requests := [];
    }

    method SetStatus(s: NotifyMeStatus)
      modifies this
      ensures status == s && statusHistory == old(statusHistory) + [s] && requests == old(requests)
    {
      status := s;
      statusHistory := statusHistory + [s];
    }

    /** `handleFormSubmit`: Submitting first; without a text email, or when the
        request fails, Error; otherwise Submitted. */
    method HandleFormSubmit(email: FormEntry, requestSucceeds: bool)
      modifies this
      ensures statusHistory == old(statusHistory) + [Submitting, status]
      ensures status == SubmitOutcome(email, requestSucceeds)
      ensures email.TextEntry? ==> requests == old(requests) + [NotifyRequest(sku, storefrontDomain, email.text)]
      ensures !email.TextEntry? ==> requests == old(requests)
    {
      SetStatus(Submitting);
      if !email.TextEntry? {
        SetStatus(Error);
        return;
      }
      requests := requests + [NotifyRequest(sku, storefrontDomain, email.text)];
      if requestSucceeds {
        SetStatus(Submitted);
      } else {
        SetStatus(Error);
      }
    }
  }

  /** The status a submit ends in. */
  function SubmitOutcome(email: FormEntry, requestSucceeds: bool): (r: NotifyMeStatus)
    ensures r == Submitted <==> email.TextEntry? && requestSucceeds
    ensures r == Error <==> !email.TextEntry? || !requestSucceeds
  {
    if email.TextEntry? && requestSucceeds then Submitted else Error
  }

  /** A submit never ends idle or submitting. */
  lemma SubmitSettles(email: FormEntry, requestSucceeds: bool)
    ensures SubmitOutcome(email, requestSucceeds) !in {Idle, Submitting}
  {
  }

  /** What the component renders. */
  datatype View =
    | SuccessAlert
    | Form(invalid: bool, inputDisabled: bool, buttonLoading: bool, buttonDisabled: bool, errorText: bool)

  function ViewOf(status: NotifyMeStatus): (r: View)
    ensures r == SuccessAlert <==> status == Submitted
    ensures r.Form? ==> (r.inputDisabled <==> status == Submitting) && (r.buttonDisabled <==> status == Submitting)
    ensures r.Form? ==> (r.buttonLoading <==> status == Submitting)
    ensures r.Form? ==> (r.errorText <==> status == Error) && (r.invalid <==> status == Error)
  {
    if status == Submitted then SuccessAlert
    else Form(status == Error, status == Submitting, status == Submitting, status == Submitting, status == Error)
  }

  /** While submitting the controls are disabled and no error shows; after a failed
      submit they are enabled again with the error text. */
  lemma ViewDuringAndAfterSubmit(email: FormEntry, requestSucceeds: bool)
    ensures ViewOf(Submitting) == Form(false, true, true, true, false)
    ensures ViewOf(SubmitOutcome(email, requestSucceeds)) ==
      if email.TextEntry? && requestSucceeds then SuccessAlert else Form(true, false, false, false, true)
  {
  }
}
