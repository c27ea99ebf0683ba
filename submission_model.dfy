/**
 * The stored submission (server/models/Submission.js): the form it answers,
 * that form's version at the time, the flat answer map, a creation time, the
 * client address and optional string metadata.
 */
module SubmissionModel {
  import opened Wrappers
  import opened Js

  datatype Submission = Submission(
    formId: string,
    formVersion: int,
    answers: Answers,
    submittedAt: int,
    ip: string,
    metadata: Option<map<string, string>>)

  /** A new document: `submittedAt` is the creation time, `ip` defaults to '', no metadata. */
  function NewSubmission(formId: string, formVersion: int, answers: Answers, ip: Option<string>, now: int): (r: Submission)
    ensures r.formId == formId && r.formVersion == formVersion && r.answers == answers
    ensures r.submittedAt == now
    ensures ip.None? ==> r.ip == ""
    ensures ip.Some? ==> r.ip == ip.value
    ensures r.metadata.None?
  {
    Submission(formId, formVersion, answers, now, if ip.Some? then ip.value else "", None)
  }
}
