/** `WebhookController::handleSurveyMonkey` as a function from the webhook's fields
    and the replies of the two outbound HTTP calls to the JSON response it returns
    and the calls it makes. The calls themselves are not modelled: each reply is an
    input, either a status code with the decoded body or a connection exception. */
module Webhook {
  import opened Php
  import opened SurveyData
  import opened EmailExtraction

  /** The three inputs the controller reads; `None` is a missing field. */
  datatype Notification = Notification(eventType: Option<string>, objectId: Option<string>, responseId: Option<string>)

  /** The survey provider's reply to the details request. */
  datatype SurveyReply = SurveyReply(status: int, detail: SurveyResponse) | SurveyUnreachable

  /** The CRM's reply to the record-creation request. */
  datatype CrmReply = CrmReply(status: int) | CrmUnreachable

  /** The CRM request body `{data: {values: {email_addresses: [...]}}}`. */
  datatype EmailAddress = EmailAddress(emailAddress: string)
  datatype PersonValues = PersonValues(emailAddresses: seq<EmailAddress>)
  datatype PersonData = PersonData(values: PersonValues)
  datatype PersonPayload = PersonPayload(data: PersonData)

  /** An outbound HTTP request the controller issues. */
  datatype Call =
    | FetchDetails(surveyId: string, responseId: string)
    | CreatePerson(payload: PersonPayload)

  /** The JSON body: `{error: ...}` or `{message: ...}`. */
  datatype Body = Error(error: string) | Message(message: string)

  datatype Outcome = Outcome(status: int, body: Body, calls: seq<Call>)

  const ResponseCompleted := "response_completed"

  /** Laravel's `successful()`: a 2xx status. */
  predicate Successful(status: int) { 200 <= status < 300 }

  /** `!$eventType || !$surveyId || !$responseId` */
  predicate MissingData(n: Notification) {
    Falsy(n.eventType) || Falsy(n.objectId) || Falsy(n.responseId)
  }

  /** `$attioData` for the extracted address. */
  function PayloadFor(email: string): PersonPayload {
    PersonPayload(PersonData(PersonValues([EmailAddress(email)])))
  }

  /** handleSurveyMonkey: each gate returns before the next is reached. */
  function HandleSurveyMonkey(n: Notification, survey: SurveyReply, crm: CrmReply, valid: string -> bool): Outcome {
    if MissingData(n) then
      Outcome(400, Error("Missing required data"), [])
    else if n.eventType.value != ResponseCompleted then
      Outcome(200, Message("Event ignored"), [])
    else
      var fetch := FetchDetails(n.objectId.value, n.responseId.value);
      match survey
      case SurveyUnreachable =>
        Outcome(500, Error("Processing failed"), [fetch])
      case SurveyReply(status, detail) =>
        if !Successful(status) then
          Outcome(500, Error("Failed to fetch response"), [fetch])
        else
          var email := ExtractEmail(detail, valid);
          if Falsy(email) then
            Outcome(400, Error("No email found"), [fetch])
          else
            var post := CreatePerson(PayloadFor(email.value));
            match crm
            case CrmUnreachable =>
              Outcome(500, Error("Processing failed"), [fetch, post])
            case CrmReply(crmStatus) =>
              if !Successful(crmStatus) then
                Outcome(500, Error("Failed to create person in Attio"), [fetch, post])
              else
                Outcome(200, Message("Success"), [fetch, post])
  }

  /** The gates that must pass before the survey provider is asked. */
  predicate ReadyToFetch(n: Notification) {
    !MissingData(n) && n.eventType.value == ResponseCompleted
  }

  // ---------------------------------------------------------------------
  // The gates, one lemma each
  // ---------------------------------------------------------------------

  /** Missing data is checked first and makes no call, whatever the event type. */
  lemma MissingDataRejected(n: Notification, survey: SurveyReply, crm: CrmReply, valid: string -> bool)
    requires MissingData(n)
    ensures HandleSurveyMonkey(n, survey, crm, valid) == Outcome(400, Error("Missing required data"), [])
  {
  }

  /** Any other event type is acknowledged and makes no call. */
  lemma OtherEventIgnored(n: Notification, survey: SurveyReply, crm: CrmReply, valid: string -> bool)
    requires !MissingData(n) && n.eventType.value != ResponseCompleted
    ensures HandleSurveyMonkey(n, survey, crm, valid) == Outcome(200, Message("Event ignored"), [])
  {
  }

  /** A failed fetch stops before extraction; the CRM is never called. */
  lemma FetchFailureReported(n: Notification, survey: SurveyReply, crm: CrmReply, valid: string -> bool)
    requires ReadyToFetch(n)
    ensures var o := HandleSurveyMonkey(n, survey, crm, valid);
      (survey.SurveyReply? && !Successful(survey.status) ==>
        o == Outcome(500, Error("Failed to fetch response"), [FetchDetails(n.objectId.value, n.responseId.value)])) &&
      (survey.SurveyUnreachable? ==>
        o == Outcome(500, Error("Processing failed"), [FetchDetails(n.objectId.value, n.responseId.value)]))
  {
  }

  /** A falsy extraction stops with "No email found"; the CRM is never called. */
  lemma NoEmailReported(n: Notification, survey: SurveyReply, crm: CrmReply, valid: string -> bool)
    requires ReadyToFetch(n) && survey.SurveyReply? && Successful(survey.status)
    requires Falsy(ExtractEmail(survey.detail, valid))
    ensures HandleSurveyMonkey(n, survey, crm, valid) ==
            Outcome(400, Error("No email found"), [FetchDetails(n.objectId.value, n.responseId.value)])
  {
  }

  /** With an email extracted, the CRM receives exactly that one address, and its reply decides the outcome. */
  lemma CrmReplyDecides(n: Notification, survey: SurveyReply, crm: CrmReply, valid: string -> bool)
    requires ReadyToFetch(n) && survey.SurveyReply? && Successful(survey.status)
    requires !Falsy(ExtractEmail(survey.detail, valid))
    ensures var o := HandleSurveyMonkey(n, survey, crm, valid);
      var e := ExtractEmail(survey.detail, valid).value;
      o.calls == [FetchDetails(n.objectId.value, n.responseId.value), CreatePerson(PayloadFor(e))] &&
      o.calls[1].payload.data.values.emailAddresses == [EmailAddress(e)] &&
      (crm.CrmUnreachable? ==> o.status == 500 && o.body == Error("Processing failed")) &&
      (crm.CrmReply? && !Successful(crm.status) ==>
        o.status == 500 && o.body == Error("Failed to create person in Attio")) &&
      (crm.CrmReply? && Successful(crm.status) ==> o.status == 200 && o.body == Message("Success"))
  {
  }

  // ---------------------------------------------------------------------
  // Properties across the gates
  // ---------------------------------------------------------------------

  /** The CRM is called only with an address the extraction produced: an accepted,
      truthy answer text of the fetched response, after a successful fetch. */
  lemma CrmOnlyWithExtractedEmail(n: Notification, survey: SurveyReply, crm: CrmReply, valid: string -> bool, c: Call)
    requires c in HandleSurveyMonkey(n, survey, crm, valid).calls && c.CreatePerson?
    ensures ReadyToFetch(n) && survey.SurveyReply? && Successful(survey.status)
    ensures exists e :: ExtractEmail(survey.detail, valid) == Some(e) && !Falsy(Some(e)) &&
                        valid(e) && IsAnswerText(survey.detail, e) && c.payload == PayloadFor(e)
  {
    var e := ExtractEmail(survey.detail, valid).value;
    ExtractEmailSound(survey.detail, valid);
    assert c.payload == PayloadFor(e);
  }

  /** The calls are sequential: the fetch, if any, comes first, and at most one CRM call follows it. */
  lemma CallsInOrder(n: Notification, survey: SurveyReply, crm: CrmReply, valid: string -> bool)
    ensures var o := HandleSurveyMonkey(n, survey, crm, valid);
      |o.calls| <= 2 &&
      (|o.calls| >= 1 <==> ReadyToFetch(n)) &&
      (|o.calls| >= 1 ==> o.calls[0] == FetchDetails(n.objectId.value, n.responseId.value)) &&
      (|o.calls| == 2 ==> o.calls[1].CreatePerson?)
  {
  }

  /** Success exactly when every gate passes and the CRM accepts. */
  lemma SuccessIff(n: Notification, survey: SurveyReply, crm: CrmReply, valid: string -> bool)
    ensures var o := HandleSurveyMonkey(n, survey, crm, valid);
      o.body == Message("Success") <==>
        ReadyToFetch(n) && survey.SurveyReply? && Successful(survey.status) &&
        !Falsy(ExtractEmail(survey.detail, valid)) && crm.CrmReply? && Successful(crm.status)
  {
  }

  /** Every outcome is one row of the controller's response table, and each body has one status. */
  lemma ResponseTable(n: Notification, survey: SurveyReply, crm: CrmReply, valid: string -> bool)
    ensures var o := HandleSurveyMonkey(n, survey, crm, valid);
      (o.status, o.body) in {
        (400, Error("Missing required data")), (200, Message("Event ignored")),
        (500, Error("Failed to fetch response")), (400, Error("No email found")),
        (500, Error("Failed to create person in Attio")), (500, Error("Processing failed")),
        (200, Message("Success"))}
  {
  }

  /** `filter_var` never accepts "" or "0" (neither holds an "@"), so for such a validator
      the "No email found" gate fires exactly when extraction found nothing. */
  lemma NoEmailIffNothingFound(n: Notification, survey: SurveyReply, crm: CrmReply, valid: string -> bool)
    requires !valid("") && !valid("0")
    requires ReadyToFetch(n) && survey.SurveyReply? && Successful(survey.status)
    ensures HandleSurveyMonkey(n, survey, crm, valid).body == Error("No email found") <==>
            ExtractEmail(survey.detail, valid) == None
  {
    if ExtractEmail(survey.detail, valid).Some? {
      ExtractEmailSound(survey.detail, valid);
    }
  }
}
