/**
 * The admin routes (server/routes/admin.js) over an in-memory stand-in for the
 * database: a map from form id to form and the list of stored submissions.
 *
 * POST /forms creates a form from title, description and fields; PUT
 * /forms/:id overwrites the attributes present in the request and bumps
 * `version` when a supplied field list differs from the stored one; DELETE
 * /forms/:id removes the form's submissions and then the form. A save runs the
 * schema's setters (trim), defaults and required checks and the pre-save hook;
 * a document that fails the checks is not stored and the route answers 500.
 */
module Admin {
  import opened Wrappers
  import opened Js
  import opened FormModel
  import opened SubmissionModel
  import Submissions
  import Export

  /** What a handler sends back. */
  datatype Reply =
    | Saved(status: int, id: string, form: Form)   // 201 after create, 200 after update
    | Failure(status: int, error: string)          // 400 or 404 with its message
    | Deleted                                      // 200 { message: 'Form deleted successfully' }
    | ServerError                                  // 500 with the schema validator's message

  // ----- the version policy of PUT /forms/:id -----

  /**
   * `JSON.stringify(form.fields) !== JSON.stringify(fields)`, read on the stored
   * list before anything is assigned; a missing `fields` counts as changed.
   */
  predicate FieldsChanged(stored: seq<Field>, fields: Option<seq<FieldInput>>) {
    fields.None? || EchoFields(stored) != fields.value
  }

  /** The document after the PUT handler's assignments, before the save. */
  function Revise(stored: Form, title: Option<string>, description: Option<string>,
                  fields: Option<seq<FieldInput>>, isActive: Option<bool>): Form
  {
    var changed := FieldsChanged(stored.fields, fields);
    stored.(
      title := if title.Some? then Trim(title.value) else stored.title,
      description := if description.Some? then Trim(description.value) else stored.description,
      fields := if fields.Some? then CastFields(fields.value) else stored.fields,
      isActive := if isActive.Some? then isActive.value else stored.isActive,
      version := if changed && fields.Some? then stored.version + 1 else stored.version)
  }

  /** The document PUT /forms/:id saves. */
  function Updated(stored: Form, title: Option<string>, description: Option<string>,
                   fields: Option<seq<FieldInput>>, isActive: Option<bool>, now: int): Form
  {
    PreSave(Revise(stored, title, description, fields, isActive), now)
  }

  /**
   * The version moves by 0 or 1, and by 1 exactly when a field list is supplied
   * that differs from how the stored list reads back.
   */
  lemma VersionStep(stored: Form, title: Option<string>, description: Option<string>,
                    fields: Option<seq<FieldInput>>, isActive: Option<bool>)
    ensures var r := Revise(stored, title, description, fields, isActive);
            && (r.version == stored.version || r.version == stored.version + 1)
            && (r.version == stored.version + 1 <==> fields.Some? && fields.value != EchoFields(stored.fields))
  {
  }

  /** Each attribute is overwritten only when the request carries it; nothing else moves. */
  lemma ReviseAttributes(stored: Form, title: Option<string>, description: Option<string>,
                         fields: Option<seq<FieldInput>>, isActive: Option<bool>)
    ensures var r := Revise(stored, title, description, fields, isActive);
            && r.title == (if title.Some? then Trim(title.value) else stored.title)
            && r.description == (if description.Some? then Trim(description.value) else stored.description)
            && r.fields == (if fields.Some? then CastFields(fields.value) else stored.fields)
            && r.isActive == (if isActive.Some? then isActive.value else stored.isActive)
            && r.createdAt == stored.createdAt && r.updatedAt == stored.updatedAt
  {
  }

  /** An update without `fields` (title, description or isActive only) keeps the version and the fields. */
  lemma MetadataUpdateKeepsVersion(stored: Form, title: Option<string>, description: Option<string>, isActive: Option<bool>)
    ensures Revise(stored, title, description, None, isActive).version == stored.version
    ensures Revise(stored, title, description, None, isActive).fields == stored.fields
  {
  }

  /** Sending back exactly what was read leaves fields and version as they were. */
  lemma ResubmitKeepsVersion(stored: Form, title: Option<string>, description: Option<string>, isActive: Option<bool>)
    requires forall i :: 0 <= i < |stored.fields| ==> Normal(stored.fields[i])
    ensures var r := Revise(stored, title, description, Some(EchoFields(stored.fields)), isActive);
            r.version == stored.version && r.fields == stored.fields
  {
    CastEchoFields(stored.fields);
  }

  /** A supplied list that would store differently always bumps the version. */
  lemma ChangedFieldsBumpVersion(stored: Form, title: Option<string>, description: Option<string>,
                                 fields: seq<FieldInput>, isActive: Option<bool>)
    requires forall i :: 0 <= i < |stored.fields| ==> Normal(stored.fields[i])
    requires CastFields(fields) != stored.fields
    ensures Revise(stored, title, description, Some(fields), isActive).version == stored.version + 1
  {
    if fields == EchoFields(stored.fields) {
      CastEchoFields(stored.fields);
      assert false;
    }
  }

  /**
   * The schema gives every stored field an `_id`, so a request field sent without
   * one never matches the read-back, and the version moves.
   */
  lemma IdlessFieldBumpsVersion(stored: Form, title: Option<string>, description: Option<string>,
                                fields: seq<FieldInput>, isActive: Option<bool>, i: int)
    requires forall j :: 0 <= j < |stored.fields| ==> stored.fields[j].id.Some?
    requires 0 <= i < |fields| && fields[i].id.None?
    ensures Revise(stored, title, description, Some(fields), isActive).version == stored.version + 1
  {
    if fields == EchoFields(stored.fields) {
      assert false;
    }
  }

  /**
   * The comparison is textual, so a list that stores identically can still bump
   * the version: a label sent with outer blanks is trimmed back to the stored one.
   */
  lemma PaddedLabelBumpsVersion(stored: Form, f: Field)
    requires stored.fields == [f] && Normal(f)
    ensures var padded := [Echo(f).(labelText := " " + f.labelText)];
            && CastFields(padded) == stored.fields
            && Revise(stored, None, None, Some(padded), None).version == stored.version + 1
  {
    var padded := [Echo(f).(labelText := " " + f.labelText)];
    TrimIgnoresLeadingBlank(f.labelText);
    assert CastFields(padded) == [f] by {
      assert CastField(padded[0]) == f;
    }
    assert padded != EchoFields(stored.fields) by {
      assert |padded[0].labelText| != |EchoFields(stored.fields)[0].labelText|;
    }
  }

  lemma TrimIgnoresLeadingBlank(s: string)
    ensures Trim(" " + s) == Trim(s)
  {
    assert (" " + s)[1..] == s;
  }

  // ----- pagination of the submission listings -----

  /** `(page - 1) * limit`, with the defaults page 1 and limit 10 applied by the caller. */
  function Skip(page: int, limit: int): int {
    (page - 1) * limit
  }

  /**
   * `Math.ceil(total / limit)`; a limit of 0 divides by zero and the JSON body
   * carries null, which is None here.
   */
  function Pages(total: nat, limit: int): (r: Option<int>)
    ensures r.None? <==> limit == 0
  {
    if limit == 0 then None
    else if limit > 0 then Some((total + limit - 1) / limit)
    else Some(-(total / -limit))
  }

  /** For a positive limit the page count is the least number of pages that holds every item. */
  lemma PagesIsCeiling(total: nat, limit: int)
    requires limit > 0
    ensures Pages(total, limit).value * limit >= total
    ensures Pages(total, limit).value >= 0
    ensures total > 0 ==> (Pages(total, limit).value - 1) * limit < total
  {
    var p := (total + limit - 1) / limit;
    var m := (total + limit - 1) % limit;
    assert p * limit + m == total + limit - 1;
    assert 0 <= m < limit;
  }

  /** A page of a positive size starts inside the list exactly when its number is at most the page count. */
  lemma PageStartsInside(total: nat, page: int, limit: int)
    requires limit > 0 && page >= 1
    ensures Skip(page, limit) < total <==> page <= Pages(total, limit).value
  {
    PagesIsCeiling(total, limit);
    var p := Pages(total, limit).value;
    if page <= p {
      MulMonotone(page - 1, p - 1, limit);
    } else {
      MulMonotone(p, page - 1, limit);
    }
  }

  lemma MulMonotone(a: int, b: int, c: int)
    requires a <= b && c > 0
    ensures a * c <= b * c
  {
  }

  // ----- the store -----

  /** Every submission on file belongs to a stored form. */
  ghost predicate NoOrphans(forms: map<string, Form>, submissions: seq<Submission>) {
    forall i :: 0 <= i < |submissions| ==> submissions[i].formId in forms
  }

  /** Every stored form passed the schema's checks and setters. */
  ghost predicate Stored(form: Form) {
    Savable(form) && forall i :: 0 <= i < |form.fields| ==> Normal(form.fields[i])
  }

  /** Every stored form passed the checks. */
  ghost predicate AllStored(forms: map<string, Form>) {
    forall id :: id in forms ==> Stored(forms[id])
  }

  /** Storing a checked document under any id keeps both store invariants. */
  lemma StoreKeepsInvariants(forms: map<string, Form>, submissions: seq<Submission>, id: string, doc: Form)
    requires NoOrphans(forms, submissions) && AllStored(forms) && Stored(doc)
    ensures NoOrphans(forms[id := doc], submissions) && AllStored(forms[id := doc])
  {
  }

  /** `Submission.deleteMany({ formId: id })`. */
  function WithoutForm(submissions: seq<Submission>, id: string): (r: seq<Submission>)
    ensures forall s :: s in r <==> s in submissions && s.formId != id
    ensures |r| <= |submissions|
  {
    if |submissions| == 0 then []
    else (if submissions[0].formId == id then [] else [submissions[0]]) + WithoutForm(submissions[1..], id)
  }

  /**
   * `deleteMany` removes every submission of the form and keeps every other
   * submission as often as it was stored; two equal records are two documents.
   */
  lemma {:induction false} WithoutFormCounts(submissions: seq<Submission>, id: string)
    ensures forall s :: multiset(WithoutForm(submissions, id))[s]
                          == if s.formId != id then multiset(submissions)[s] else 0
  {
    if |submissions| > 0 {
      WithoutFormCounts(submissions[1..], id);
      assert submissions == [submissions[0]] + submissions[1..];
    }
  }

  lemma WithoutFormStep(a: seq<Submission>, b: seq<Submission>, id: string)
    requires |a| > 0
    ensures WithoutForm(a + b, id) == (if a[0].formId == id then [] else [a[0]]) + WithoutForm(a[1..] + b, id)
  {
    assert (a + b)[0] == a[0] && (a + b)[1..] == a[1..] + b;
  }

  /** The deletion works piece by piece, so the kept submissions stay in store order. */
  lemma {:induction false} WithoutFormSplit(a: seq<Submission>, b: seq<Submission>, id: string)
    ensures WithoutForm(a + b, id) == WithoutForm(a, id) + WithoutForm(b, id)
  {
    if |a| > 0 {
      WithoutFormStep(a, b, id);
      WithoutFormSplit(a[1..], b, id);
    } else {
      assert a + b == b;
    }
  }

  /**
   * The submissions the export of a form lists and the ones deleting that form
   * keeps split the stored submissions between them, each record exactly once.
   */
  lemma {:induction false} ExportAndDeletePartition(submissions: seq<Submission>, id: string)
    ensures multiset(Export.OfForm(submissions, id)) + multiset(WithoutForm(submissions, id)) == multiset(submissions)
  {
    if |submissions| > 0 {
      ExportAndDeletePartition(submissions[1..], id);
      assert submissions == [submissions[0]] + submissions[1..];
    }
  }

  /** The document POST /forms saves. */
  function NewDocument(title: string, description: Option<string>, fields: Option<seq<FieldInput>>, now: int): (r: Form)
    ensures description.None? ==> r.description == ""
    ensures fields.None? ==> r.fields == []
    ensures r.version == 1 && r.isActive && r.updatedAt == now
  {
    PreSave(NewForm(title, if description.Some? then description.value else "",
                    if fields.Some? then fields.value else [], now), now)
  }

  lemma NewDocumentIsNormal(title: string, description: Option<string>, fields: Option<seq<FieldInput>>, now: int)
    ensures forall i :: 0 <= i < |NewDocument(title, description, fields, now).fields| ==>
              Normal(NewDocument(title, description, fields, now).fields[i])
  {
    var fs := NewDocument(title, description, fields, now).fields;
    forall i | 0 <= i < |fs| ensures Normal(fs[i]) {
      var input := if fields.Some? then fields.value else [];
      CastIsNormal(input[i]);
    }
  }

  lemma RevisedIsNormal(stored: Form, title: Option<string>, description: Option<string>,
                        fields: Option<seq<FieldInput>>, isActive: Option<bool>, now: int)
    requires forall i :: 0 <= i < |stored.fields| ==> Normal(stored.fields[i])
    ensures var r := Updated(stored, title, description, fields, isActive, now);
            forall i :: 0 <= i < |r.fields| ==> Normal(r.fields[i])
  {
    var r := Updated(stored, title, description, fields, isActive, now);
    forall i | 0 <= i < |r.fields| ensures Normal(r.fields[i]) {
      if fields.Some? {
        CastIsNormal(fields.value[i]);
      }
    }
  }

  /** Storing the document PUT /forms/:id builds keeps both store invariants. */
  lemma UpdateKeepsInvariants(forms: map<string, Form>, submissions: seq<Submission>, id: string,
                              title: Option<string>, description: Option<string>,
                              fields: Option<seq<FieldInput>>, isActive: Option<bool>, now: int)
    requires NoOrphans(forms, submissions) && AllStored(forms) && id in forms
    requires Savable(Updated(forms[id], title, description, fields, isActive, now))
    ensures var doc := Updated(forms[id], title, description, fields, isActive, now);
            NoOrphans(forms[id := doc], submissions) && AllStored(forms[id := doc])
  {
    RevisedIsNormal(forms[id], title, description, fields, isActive, now);
    StoreKeepsInvariants(forms, submissions, id, Updated(forms[id], title, description, fields, isActive, now));
  }

  class Store {
    var forms: map<string, Form>
    var submissions: seq<Submission>

    ghost predicate Valid()
      reads this
    {
      NoOrphans(forms, submissions) && AllStored(forms)
    }

    constructor ()
      ensures Valid() && forms == map[] && submissions == []
    {
      forms := map[];
      submissions := [];
    }

    /**
     * POST /forms: a missing or empty title is refused with 400 before anything
     * is built; otherwise the new document is stored under a fresh id unless the
     * schema's checks refuse it.
     */
    method CreateForm(title: Option<string>, description: Option<string>, fields: Option<seq<FieldInput>>,
                      newId: string, now: int) returns (reply: Reply)
      requires Valid() && newId !in forms
      modifies this
      ensures Valid() && submissions == old(submissions)
      ensures title.None? || title.value == "" ==> reply == Failure(400, "Title is required") && forms == old(forms)
      ensures title.Some? && title.value != "" ==>
                var doc := NewDocument(title.value, description, fields, now);
                if Savable(doc) then reply == Saved(201, newId, doc) && forms == old(forms)[newId := doc]
                else reply == ServerError && forms == old(forms)
    {
      if title.None? || title.value == "" {
        return Failure(400, "Title is required");
      }
      var text := if description.Some? && description.value != "" then description.value else "";
      var list := if fields.Some? then fields.value else [];
      assert text == if description.Some? then description.value else "";
      var form := NewForm(title.value, text, list, now);
      form := PreSave(form, now);
      assert form == NewDocument(title.value, description, fields, now);
      if !Savable(form) {
        return ServerError;
      }
      NewDocumentIsNormal(title.value, description, fields, now);
      StoreKeepsInvariants(forms, submissions, newId, form);
      forms := forms[newId := form];
      reply := Saved(201, newId, form);
    }

    /**
     * PUT /forms/:id: 404 for an unknown id; otherwise the change test reads the
     * stored list first, then each attribute present in the request is assigned,
     * the version is bumped when the list changed, and the save runs.
     */
    method UpdateForm(id: string, title: Option<string>, description: Option<string>,
                      fields: Option<seq<FieldInput>>, isActive: Option<bool>, now: int) returns (reply: Reply)
      requires Valid()
      modifies this
      ensures Valid() && submissions == old(submissions)
      ensures id !in old(forms) ==> reply == Failure(404, "Form not found") && forms == old(forms)
      ensures id in old(forms) && Savable(Updated(old(forms)[id], title, description, fields, isActive, now)) ==>
                var doc := Updated(old(forms)[id], title, description, fields, isActive, now);
                reply == Saved(200, id, doc) && forms == old(forms)[id := doc]
      ensures id in old(forms) && !Savable(Updated(old(forms)[id], title, description, fields, isActive, now)) ==>
                reply == ServerError && forms == old(forms)
    {
      if id !in forms {
        return Failure(404, "Form not found");
      }
      var stored := forms[id];
      var form := ReviseStored(stored, title, description, fields, isActive, now);
      if !Savable(form) {
        return ServerError;
      }
      UpdateKeepsInvariants(forms, submissions, id, title, description, fields, isActive, now);
      forms := forms[id := form];
      reply := Saved(200, id, form);
    }

    /**
     * The handler's assignments to the stored document, one attribute at a time, then the
     * pre-save hook; proved equal to the specification function `Updated`.
     */
    static method ReviseStored(stored: Form, title: Option<string>, description: Option<string>,
                               fields: Option<seq<FieldInput>>, isActive: Option<bool>, now: int) returns (form: Form)
      ensures form == Updated(stored, title, description, fields, isActive, now)
    {
      var fieldsChanged := FieldsChanged(stored.fields, fields);
      // each attribute the request carries replaces the stored one
      var newTitle := if title.Some? then Trim(title.value) else stored.title;
      var newDescription := if description.Some? then Trim(description.value) else stored.description;
      var newFields := if fields.Some? then CastFields(fields.value) else stored.fields;
      var newActive := if isActive.Some? then isActive.value else stored.isActive;
      var newVersion := if fieldsChanged && fields.Some? then stored.version + 1 else stored.version;
      form := stored.(title := newTitle, description := newDescription, fields := newFields,
                      isActive := newActive, version := newVersion);
      ghost var revised := Revise(stored, title, description, fields, isActive);
      assert form.version == revised.version;
      assert form.fields == revised.fields;
      assert form.title == revised.title && form.description == revised.description;
      assert form == revised;
      form := PreSave(form, now);
    }

    /**
     * POST /api/submissions against the store (server/routes/submissions.js):
     * an accepted submission is appended; every refusal stores nothing.
     */
    method PostSubmission(rt: Runtime, formId: Option<string>, answers: Option<Answers>,
                          ip: string, forwarded: string, now: int) returns (reply: Submissions.Reply)
      requires Valid()
      modifies this
      ensures Valid() && forms == old(forms)
      ensures reply == Submissions.Submit(rt, old(forms), formId, answers, ip, forwarded, now)
      ensures submissions == old(submissions) + (if reply.Created? then [reply.submission] else [])
    {
      reply := Submissions.Submit(rt, forms, formId, answers, ip, forwarded, now);
      if reply.Created? {
        submissions := submissions + [reply.submission];
      }
    }

    /** DELETE /forms/:id: 404 for an unknown id; otherwise the form's submissions go, then the form. */
    method DeleteForm(id: string) returns (reply: Reply)
      requires Valid()
      modifies this
      ensures Valid()
      ensures id !in old(forms) ==>
                reply == Failure(404, "Form not found") && forms == old(forms) && submissions == old(submissions)
      ensures id in old(forms) ==>
                && reply == Deleted
                && forms == old(forms) - {id}
                && submissions == WithoutForm(old(submissions), id)
    {
      if id !in forms {
        return Failure(404, "Form not found");
      }
      submissions := WithoutForm(submissions, id);
      forms := forms - {id};
      reply := Deleted;
      forall i | 0 <= i < |submissions| ensures submissions[i].formId in forms {
        assert submissions[i] in old(submissions);
      }
    }
  }
}
