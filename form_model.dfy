/**
 * The server's form schema (server/models/Form.js): a form owns an ordered
 * list of fields; a field's options may carry nested fields, whose own options
 * carry only a label and a value, so nesting stops after one level. The
 * schema trims labels, names, titles and descriptions, supplies defaults, and
 * refuses to save a document whose required strings are empty.
 */
module FormModel {
  import opened Wrappers
  import opened Js
  import ClientTypes

  type FieldType = ClientTypes.FieldType

  /** An option of a nested field: a label and a value, nothing nested below it. */
  datatype Choice = Choice(labelText: string, value: string)

  /** A nested field; its type is a free string and it has no validation bag. */
  datatype NestedField = NestedField(labelText: string, kind: string, name: string, required: bool, options: seq<Choice>)

  datatype FieldOption = FieldOption(labelText: string, value: string, nestedFields: seq<NestedField>)

  /** The validation bag; an unset key is None. */
  datatype Validation = Validation(
    min: Option<real>, max: Option<real>, regex: Option<string>, minLength: Option<real>, maxLength: Option<real>)

  const NoValidation := Validation(None, None, None, None, None)

  /** A stored field: every default has been applied. */
  datatype Field = Field(
    id: Option<string>,
    labelText: string,
    fieldType: FieldType,
    name: string,
    required: bool,
    options: seq<FieldOption>,
    validation: Validation,
    order: int)

  datatype Form = Form(
    title: string,
    description: string,
    fields: seq<Field>,
    version: int,
    isActive: bool,
    createdAt: int,
    updatedAt: int)

  /** A field as a request body carries it: `required`, `options` and `order` may be missing. */
  datatype FieldInput = FieldInput(
    id: Option<string>,
    labelText: string,
    fieldType: FieldType,
    name: string,
    required: Option<bool>,
    options: Option<seq<FieldOption>>,
    validation: Validation,
    order: Option<int>)

  /** What storing a request field yields: labels and names trimmed, defaults filled in. */
  function CastField(f: FieldInput): (r: Field)
    ensures r.labelText == Trim(f.labelText) && r.name == Trim(f.name)
    ensures r.required <==> f.required == Some(true)
    ensures f.order.None? ==> r.order == 0
    ensures f.options.None? ==> r.options == []
    ensures r.id == f.id && r.fieldType == f.fieldType && r.validation == f.validation
  {
    Field(
      f.id, Trim(f.labelText), f.fieldType, Trim(f.name),
      if f.required.Some? then f.required.value else false,
      if f.options.Some? then f.options.value else [],
      f.validation,
      if f.order.Some? then f.order.value else 0)
  }

  function CastFields(fs: seq<FieldInput>): (r: seq<Field>)
    ensures |r| == |fs|
    ensures forall i :: 0 <= i < |fs| ==> r[i] == CastField(fs[i])
  {
    seq(|fs|, i requires 0 <= i < |fs| => CastField(fs[i]))
  }

  /** How a stored field reads back: every default spelled out. */
  function Echo(f: Field): FieldInput {
    FieldInput(f.id, f.labelText, f.fieldType, f.name, Some(f.required), Some(f.options), f.validation, Some(f.order))
  }

  function EchoFields(fs: seq<Field>): (r: seq<FieldInput>)
    ensures |r| == |fs|
    ensures forall i :: 0 <= i < |fs| ==> r[i] == Echo(fs[i])
  {
    seq(|fs|, i requires 0 <= i < |fs| => Echo(fs[i]))
  }

  /** The schema's setters have run: label and name carry no outer white space. */
  predicate Normal(f: Field) {
    Trim(f.labelText) == f.labelText && Trim(f.name) == f.name
  }

  /** Every stored field is normal. */
  lemma CastIsNormal(f: FieldInput)
    ensures Normal(CastField(f))
  {
    TrimIdempotent(f.labelText);
    TrimIdempotent(f.name);
  }

  /** Storing what a stored list reads back as gives the same list. */
  lemma {:induction false} CastEchoFields(fs: seq<Field>)
    requires forall i :: 0 <= i < |fs| ==> Normal(fs[i])
    ensures CastFields(EchoFields(fs)) == fs
  {
    var r := CastFields(EchoFields(fs));
    forall i | 0 <= i < |fs| ensures r[i] == fs[i] {
      assert Normal(fs[i]);
    }
  }

  /** The schema's `required: true` string paths: an empty value fails the save. */
  predicate Savable(form: Form) {
    form.title != ""
    && forall i :: 0 <= i < |form.fields| ==> form.fields[i].labelText != "" && form.fields[i].name != ""
  }

  /** A new document: version 1, active, timestamps now, description trimmed. */
  function NewForm(title: string, description: string, fields: seq<FieldInput>, now: int): (r: Form)
    ensures r.version == 1 && r.isActive
    ensures r.createdAt == now && r.updatedAt == now
    ensures r.title == Trim(title) && r.description == Trim(description)
    ensures r.fields == CastFields(fields)
  {
    Form(Trim(title), Trim(description), CastFields(fields), 1, true, now, now)
  }

  /** The pre-save hook: `updatedAt` becomes the current time and nothing else changes. */
  function PreSave(form: Form, now: int): (r: Form)
    ensures r.updatedAt == now
    ensures r.(updatedAt := form.updatedAt) == form
  {
    form.(updatedAt := now)
  }

  /** What the schema keeps of a client option's nested field: label, type, name, flag, choices. */
  function NestedFromClient(c: ClientTypes.Field): (r: NestedField)
    ensures r.labelText == c.labelText && r.name == c.name && r.required == c.required
    ensures ClientTypes.ParseType(r.kind) == Some(c.fieldType)
    ensures c.options.Some? ==> |r.options| == |c.options.value|
    ensures c.options.None? ==> r.options == []
  {
    ClientTypes.ParseTypeName(c.fieldType);
    var os := if c.options.Some? then c.options.value else [];
    NestedField(
      c.labelText, ClientTypes.TypeName(c.fieldType), c.name, c.required,
      seq(|os|, i requires 0 <= i < |os| => Choice(os[i].labelText, os[i].value)))
  }

  function OptionFromClient(o: ClientTypes.FieldOption): (r: FieldOption)
    ensures r.labelText == o.labelText && r.value == o.value
    ensures o.nestedFields.Some? ==> |r.nestedFields| == |o.nestedFields.value|
  {
    var ns := if o.nestedFields.Some? then o.nestedFields.value else [];
    FieldOption(o.labelText, o.value, seq(|ns|, i requires 0 <= i < |ns| => NestedFromClient(ns[i])))
  }

  function RuleFromSlot<T>(s: ClientTypes.Slot<T>): (r: Option<T>)
    ensures r.Some? <==> s.Present?
  {
    if s.Present? then Some(s.value) else None
  }

  /**
   * What the strict schema keeps of a field the client sends. The client type
   * lets nested fields carry options with nested fields of their own; the
   * schema drops everything below the first level.
   */
  function FromClient(c: ClientTypes.Field): (r: FieldInput)
    ensures r.labelText == c.labelText && r.name == c.name && r.fieldType == c.fieldType
    ensures r.required == Some(c.required) && r.order == Some(c.order) && r.id == c.id
    ensures r.options.Some? <==> c.options.Some?
    ensures c.options.Some? ==>
              && |r.options.value| == |c.options.value|
              && forall i :: 0 <= i < |c.options.value| ==> r.options.value[i].value == c.options.value[i].value
  {
    var rules := if c.validation.Some? then c.validation.value else ClientTypes.NoRules;
    FieldInput(
      c.id, c.labelText, c.fieldType, c.name, Some(c.required),
      if c.options.Some?
      then Some(seq(|c.options.value|, i requires 0 <= i < |c.options.value| => OptionFromClient(c.options.value[i])))
      else None,
      Validation(RuleFromSlot(rules.min), RuleFromSlot(rules.max), RuleFromSlot(rules.regex),
                 RuleFromSlot(rules.minLength), RuleFromSlot(rules.maxLength)),
      Some(c.order))
  }
}
