/**
 * The client's data shapes (client/src/types/index.ts). The eight field
 * types are also the server schema's enum, so both sides use `FieldType`.
 * Unlike the server schema, a client field's options may nest fields to any depth.
 */
module ClientTypes {
  import opened Wrappers
  import opened Js

  datatype FieldType = Text | Textarea | Number | Email | Date | Checkbox | Radio | Select

  /** The wire spelling of each field type. */
  function TypeName(t: FieldType): string {
    match t
    case Text => "text"
    case Textarea => "textarea"
    case Number => "number"
    case Email => "email"
    case Date => "date"
    case Checkbox => "checkbox"
    case Radio => "radio"
    case Select => "select"
  }

  /** Reads a type string; anything outside the eight names is None. */
  function ParseType(s: string): (r: Option<FieldType>)
    ensures r.Some? ==> TypeName(r.value) == s
  {
    if s == "text" then Some(Text)
    else if s == "textarea" then Some(Textarea)
    else if s == "number" then Some(Number)
    else if s == "email" then Some(Email)
    else if s == "date" then Some(Date)
    else if s == "checkbox" then Some(Checkbox)
    else if s == "radio" then Some(Radio)
    else if s == "select" then Some(Select)
    else None
  }

  /** Every type name reads back as its type, so the eight spellings are distinct. */
  lemma ParseTypeName(t: FieldType)
    ensures ParseType(TypeName(t)) == Some(t)
  {
  }

  /** Exactly the eight literal strings are field types. */
  lemma TypeNamesExactly(s: string)
    ensures ParseType(s).Some? <==>
      s in ["text", "textarea", "number", "email", "date", "checkbox", "radio", "select"]
  {
  }

  /** A TypeScript optional key: missing, present but `undefined`, or set. */
  datatype Slot<T> = Absent | Undefined | Present(value: T) {
    predicate HasKey() { !Absent? }
  }

  /** The validation bag; every key is optional. */
  datatype ValidationRules = ValidationRules(
    min: Slot<real>, max: Slot<real>, minLength: Slot<real>, maxLength: Slot<real>, regex: Slot<string>)

  const NoRules := ValidationRules(Absent, Absent, Absent, Absent, Absent)

  /** `Object.keys(rules).length`. */
  function KeyCount(v: ValidationRules): (r: nat)
    ensures r <= 5
    ensures r == 0 <==> v == NoRules
  {
    (if v.min.HasKey() then 1 else 0) + (if v.max.HasKey() then 1 else 0)
    + (if v.minLength.HasKey() then 1 else 0) + (if v.maxLength.HasKey() then 1 else 0)
    + (if v.regex.HasKey() then 1 else 0)
  }

  datatype FieldOption = FieldOption(labelText: string, value: string, nestedFields: Option<seq<Field>>)

  datatype Field = Field(
    id: Option<string>,
    labelText: string,
    fieldType: FieldType,
    name: string,
    required: bool,
    options: Option<seq<FieldOption>>,
    validation: Option<ValidationRules>,
    order: int)

  datatype Form = Form(
    id: Option<string>,
    title: string,
    description: string,
    fields: seq<Field>,
    version: int,
    isActive: bool,
    createdAt: Option<string>,
    updatedAt: Option<string>)

  datatype Submission = Submission(
    id: Option<string>,
    formId: string,
    formVersion: int,
    answers: Answers,
    submittedAt: string,
    ip: Option<string>,
    metadata: Option<map<string, string>>)
}
