/**
 * POST /api/submissions (server/routes/submissions.js): a sequence of guards,
 * then the stored record. The reply is 400 when `formId` or `answers` is
 * missing, 404 when the form is missing or inactive, 400 with the validator's
 * error map when validation fails, and 201 with a new submission tagged with
 * the form's current version otherwise.
 */
module Submissions {
  import opened Wrappers
  import opened Js
  import opened FormModel
  import opened SubmissionModel
  import Validation

  datatype Reply =
    | BadRequest(error: string)                       // 400
    | NotFound(error: string)                         // 404
    | Rejected(error: string, errors: map<string, seq<string>>)  // 400 with the error map
    | Created(submission: Submission)                 // 201

  function Status(r: Reply): (code: int)
    ensures code == 201 <==> r.Created?
    ensures code == 404 <==> r.NotFound?
  {
    match r
    case BadRequest(_) => 400
    case NotFound(_) => 404
    case Rejected(_, _) => 400
    case Created(_) => 201
  }

  /** `req.ip || req.headers['x-forwarded-for'] || ''`. */
  function ClientIp(ip: string, forwarded: string): (r: string)
    ensures r == ip || r == forwarded
    ensures r == "" ==> ip == "" && forwarded == ""
  {
    if ip != "" then ip else if forwarded != "" then forwarded else ""
  }

  /**
   * The handler. `formId` and `answers` are None when the body lacks them (or
   * holds a falsy value); `forms` is the store `findById` reads.
   */
  function Submit(rt: Runtime, forms: map<string, Form>, formId: Option<string>, answers: Option<Answers>,
                  ip: string, forwarded: string, now: int): (r: Reply)
    ensures r.BadRequest? <==> formId.None? || formId.value == "" || answers.None?
    ensures r.NotFound? <==>
              !r.BadRequest? && (formId.value !in forms || !forms[formId.value].isActive)
    ensures r.Rejected? ==>
              && r.errors == Validation.Validate(rt, forms[formId.value], answers.value).errors
              && r.errors != map[]
    ensures r.Created? <==>
              && !r.BadRequest? && !r.NotFound?
              && Validation.Validate(rt, forms[formId.value], answers.value).isValid
    ensures r.Created? ==>
              && r.submission.formId == formId.value
              && r.submission.formVersion == forms[formId.value].version
              && r.submission.answers == answers.value
              && r.submission.submittedAt == now
  {
    if formId.None? || formId.value == "" || answers.None? then
      BadRequest("formId and answers are required")
    else if formId.value !in forms || !forms[formId.value].isActive then
      NotFound("Form not found or inactive")
    else
      var form := forms[formId.value];
      var validation := Validation.Validate(rt, form, answers.value);
      if !validation.isValid then
        Validation.ValidIffEmptyErrors(rt, form, answers.value);
        Rejected("Validation failed", validation.errors)
      else
        Created(NewSubmission(formId.value, form.version, answers.value, Some(ClientIp(ip, forwarded)), now))
  }

  /** A request without `formId` or `answers` is refused whatever the store holds. */
  lemma MissingInputBeforeLookup(rt: Runtime, forms1: map<string, Form>, forms2: map<string, Form>,
                                 formId: Option<string>, answers: Option<Answers>, ip: string, forwarded: string, now: int)
    requires formId.None? || formId.value == "" || answers.None?
    ensures Submit(rt, forms1, formId, answers, ip, forwarded, now) == Submit(rt, forms2, formId, answers, ip, forwarded, now)
    ensures Status(Submit(rt, forms1, formId, answers, ip, forwarded, now)) == 400
  {
  }

  /** Missing and inactive forms give one reply, and the validator is never consulted for them. */
  lemma NotFoundIsUniform(rt1: Runtime, rt2: Runtime, forms: map<string, Form>, id: string, answers: Answers,
                          ip: string, forwarded: string, now: int)
    requires id != ""
    requires id !in forms || !forms[id].isActive
    ensures Submit(rt1, forms, Some(id), Some(answers), ip, forwarded, now)
            == Submit(rt2, map[], Some(id), Some(answers), ip, forwarded, now)
            == NotFound("Form not found or inactive")
  {
  }
}
