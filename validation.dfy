/**
 * The answer validator (server/utils/validation.js).
 *
 * `ValidateField` checks one value against one field: a blank value
 * (null, undefined or '') stops at the required check; otherwise the rules
 * of the field's type apply. `ValidateSubmission` walks the fields in
 * ascending `order`, stores each field's non-empty error list under its name,
 * and for a radio or select field whose truthy value selects an option with
 * nested fields, validates those under the key `<field>_<nested>`.
 */
module Validation {
  import opened Wrappers
  import opened Js
  import opened FormModel
  import ClientTypes
  import FieldOrder
  import opened AnswerKeys

  // ----- what the validator reads of a field -----

  /** The parts of a field `validateField` looks at; top-level and nested fields both map here. */
  datatype Target = Target(
    labelText: string,
    fieldType: Option<ClientTypes.FieldType>,   // None: a nested field's type string outside the eight
    required: bool,
    values: seq<string>,                        // `field.options.map(opt => opt.value)`
    rules: Validation)

  /** `field.options.map(opt => opt.value)` over a stored field's options. */
  function OptionValues(os: seq<FieldOption>): (r: seq<string>)
    ensures |r| == |os|
    ensures forall i :: 0 <= i < |os| ==> r[i] == os[i].value
  {
    seq(|os|, i requires 0 <= i < |os| => os[i].value)
  }

  /** The same projection over a nested field's choices, which are a type of their own (label and value only). */
  function ChoiceValues(cs: seq<Choice>): (r: seq<string>)
    ensures |r| == |cs|
    ensures forall i :: 0 <= i < |cs| ==> r[i] == cs[i].value
  {
    seq(|cs|, i requires 0 <= i < |cs| => cs[i].value)
  }

  function TopTarget(f: Field): Target {
    Target(f.labelText, Some(f.fieldType), f.required, OptionValues(f.options), f.validation)
  }

  /** A nested field: its type string is matched against the eight names and it has no bounds. */
  function NestedTarget(n: NestedField): Target {
    Target(n.labelText, ClientTypes.ParseType(n.kind), n.required, ChoiceValues(n.options), NoValidation)
  }

  // ----- messages -----

  function RequiredMessage(l: string): string { l + " is required" }
  function EmailMessage(l: string): string { l + " must be a valid email address" }
  function NotNumberMessage(l: string): string { l + " must be a number" }
  function AtLeastMessage(l: string, bound: string): string { l + " must be at least " + bound }
  function AtMostMessage(l: string, bound: string): string { l + " must be at most " + bound }
  function MinLengthMessage(l: string, bound: string): string { l + " must be at least " + bound + " characters" }
  function MaxLengthMessage(l: string, bound: string): string { l + " must be at most " + bound + " characters" }
  function FormatMessage(l: string): string { l + " format is invalid" }
  function DateMessage(l: string): string { l + " must be a valid date" }
  function NoOptionsMessage(l: string): string { l + " has no options defined" }
  function NotOneOfMessage(l: string): string { l + " must be one of the provided options" }
  function NotArrayMessage(l: string): string { l + " must be an array" }
  function InvalidOptionsMessage(l: string): string { l + " contains invalid options" }

  // ----- the e-mail pattern /^[^\s@]+@[^\s@]+\.[^\s@]+$/ -----

  predicate NoSpaceOrAt(s: string) {
    forall i :: 0 <= i < |s| ==> !IsSpace(s[i]) && s[i] != '@'
  }

  /** The pattern read as a concatenation: three non-empty runs free of white space and '@'. */
  predicate EmailPattern(s: string) {
    exists at, dot | 0 <= at < |s| && 0 <= dot < |s| ::
      && 0 < at && at + 1 < dot < |s| - 1
      && s[at] == '@' && s[dot] == '.'
      && NoSpaceOrAt(s[..at]) && NoSpaceOrAt(s[at + 1..dot]) && NoSpaceOrAt(s[dot + 1..])
  }

  // ----- per-type rules -----

  /** `validValues.includes(value)`: strict equality with one of the option values. */
  predicate IsOneOf(values: seq<string>, v: Value) {
    v.Str? && v.s in values
  }

  function NumberErrors(rt: Runtime, t: Target, v: Value): seq<string> {
    match ToNumber(rt, v)
    case None => [NotNumberMessage(t.labelText)]
    case Some(n) =>
      (if t.rules.min.Some? && n < t.rules.min.value
       then [AtLeastMessage(t.labelText, rt.numberText(t.rules.min.value))] else [])
      + (if t.rules.max.Some? && n > t.rules.max.value
         then [AtMostMessage(t.labelText, rt.numberText(t.rules.max.value))] else [])
  }

  /** The user pattern is handed to `test`, which searches; a pattern that does not compile is skipped. */
  predicate FailsPattern(rt: Runtime, t: Target, s: string) {
    t.rules.regex.Some? && t.rules.regex.value != "" && rt.regexTest(t.rules.regex.value, s) == Some(false)
  }

  function TextErrors(rt: Runtime, t: Target, s: string): seq<string> {
    (if t.rules.minLength.Some? && (Utf16Length(s) as real) < t.rules.minLength.value
     then [MinLengthMessage(t.labelText, rt.numberText(t.rules.minLength.value))] else [])
    + (if t.rules.maxLength.Some? && (Utf16Length(s) as real) > t.rules.maxLength.value
       then [MaxLengthMessage(t.labelText, rt.numberText(t.rules.maxLength.value))] else [])
    + (if FailsPattern(rt, t, s) then [FormatMessage(t.labelText)] else [])
  }

  function ChoiceErrors(t: Target, v: Value): seq<string> {
    if |t.values| == 0 then [NoOptionsMessage(t.labelText)]
    else if IsOneOf(t.values, v) then []
    else [NotOneOfMessage(t.labelText)]
  }

  /** `value.filter(v => !validValues.includes(v))`. */
  function InvalidItems(values: seq<string>, items: seq<Value>): (r: seq<Value>)
    ensures forall x :: x in r <==> x in items && !IsOneOf(values, x)
  {
    if |items| == 0 then []
    else (if IsOneOf(values, items[0]) then [] else [items[0]]) + InvalidItems(values, items[1..])
  }

  function CheckboxErrors(t: Target, v: Value): seq<string> {
    if !v.Arr? then [NotArrayMessage(t.labelText)]
    else if |t.values| > 0 && |InvalidItems(t.values, v.items)| > 0 then [InvalidOptionsMessage(t.labelText)]
    else []
  }

  function TypeErrors(rt: Runtime, t: Target, v: Value): seq<string> {
    match t.fieldType
    case None => []
    case Some(ty) =>
      match ty
      case Email => if EmailPattern(ToStr(rt, v)) then [] else [EmailMessage(t.labelText)]
      case Number => NumberErrors(rt, t, v)
      case Text => TextErrors(rt, t, ToStr(rt, v))
      case Textarea => TextErrors(rt, t, ToStr(rt, v))
      case Date => if IsValidDate(rt, v) then [] else [DateMessage(t.labelText)]
      case Radio => ChoiceErrors(t, v)
      case Select => ChoiceErrors(t, v)
      case Checkbox => CheckboxErrors(t, v)
  }

  /** `validateField(field, value)`. */
  function ValidateField(rt: Runtime, t: Target, value: Option<Value>): (r: seq<string>)
    ensures Blank(value) && t.required ==> r == [RequiredMessage(t.labelText)]
    ensures Blank(value) && !t.required ==> r == []
    ensures |r| <= 3
  {
    if Blank(value) then
      if t.required then [RequiredMessage(t.labelText)] else []
    else
      TypeErrors(rt, t, value.value)
  }

  // ----- the rules per type -----

  /** Messages that differ at one position after the label are different. */
  lemma DifferAfterLabel(l: string, a: string, b: string, k: nat)
    requires k < |a| && k < |b| && a[k] != b[k]
    ensures l + a != l + b
  {
    assert (l + a)[|l| + k] == a[k];
    assert (l + b)[|l| + k] == b[k];
  }

  lemma BoundMessagesDiffer(l: string, x: string, y: string)
    ensures AtLeastMessage(l, x) != AtMostMessage(l, y)
    ensures MinLengthMessage(l, x) != MaxLengthMessage(l, y)
    ensures MinLengthMessage(l, x) != FormatMessage(l)
    ensures MaxLengthMessage(l, y) != FormatMessage(l)
  {
    DifferAfterLabel(l, " must be at least " + x, " must be at most " + y, 12);
    assert AtLeastMessage(l, x) == l + (" must be at least " + x);
    assert AtMostMessage(l, y) == l + (" must be at most " + y);
    DifferAfterLabel(l, " must be at least " + x + " characters", " must be at most " + y + " characters", 12);
    assert MinLengthMessage(l, x) == l + (" must be at least " + x + " characters");
    assert MaxLengthMessage(l, y) == l + (" must be at most " + y + " characters");
    DifferAfterLabel(l, " must be at least " + x + " characters", " format is invalid", 1);
    DifferAfterLabel(l, " must be at most " + y + " characters", " format is invalid", 1);
    assert FormatMessage(l) == l + " format is invalid";
  }

  /**
   * number: a value `Number` cannot read yields only "must be a number"; otherwise
   * the min error appears iff the value is below min and the max error iff it is
   * above max, so both bounds are inclusive, and nothing else is reported.
   */
  lemma NumberRules(rt: Runtime, t: Target, value: Option<Value>)
    requires t.fieldType == Some(ClientTypes.Number) && !Blank(value)
    ensures ToNumber(rt, value.value).None? ==> ValidateField(rt, t, value) == [NotNumberMessage(t.labelText)]
    ensures ToNumber(rt, value.value).Some? && t.rules.min.Some? ==>
              (AtLeastMessage(t.labelText, rt.numberText(t.rules.min.value)) in ValidateField(rt, t, value)
               <==> ToNumber(rt, value.value).value < t.rules.min.value)
    ensures ToNumber(rt, value.value).Some? && t.rules.max.Some? ==>
              (AtMostMessage(t.labelText, rt.numberText(t.rules.max.value)) in ValidateField(rt, t, value)
               <==> ToNumber(rt, value.value).value > t.rules.max.value)
    ensures ToNumber(rt, value.value).Some? ==>
              forall e :: e in ValidateField(rt, t, value) ==>
                || (t.rules.min.Some? && e == AtLeastMessage(t.labelText, rt.numberText(t.rules.min.value)))
                || (t.rules.max.Some? && e == AtMostMessage(t.labelText, rt.numberText(t.rules.max.value)))
  {
    if ToNumber(rt, value.value).Some? && t.rules.min.Some? && t.rules.max.Some? {
      BoundMessagesDiffer(t.labelText, rt.numberText(t.rules.min.value), rt.numberText(t.rules.max.value));
    }
  }

  /**
   * text and textarea: the length checks are inclusive on `String(value).length`,
   * counted in UTF-16 code units;
   * the format error appears iff a non-empty pattern compiles and `test` finds no
   * match anywhere in the string, so a pattern that does not compile adds nothing.
   */
  lemma TextRules(rt: Runtime, t: Target, value: Option<Value>)
    requires (t.fieldType == Some(ClientTypes.Text) || t.fieldType == Some(ClientTypes.Textarea)) && !Blank(value)
    ensures t.rules.minLength.Some? ==>
              (MinLengthMessage(t.labelText, rt.numberText(t.rules.minLength.value)) in ValidateField(rt, t, value)
               <==> (Utf16Length(ToStr(rt, value.value)) as real) < t.rules.minLength.value)
    ensures t.rules.maxLength.Some? ==>
              (MaxLengthMessage(t.labelText, rt.numberText(t.rules.maxLength.value)) in ValidateField(rt, t, value)
               <==> (Utf16Length(ToStr(rt, value.value)) as real) > t.rules.maxLength.value)
    ensures FormatMessage(t.labelText) in ValidateField(rt, t, value) <==>
              t.rules.regex.Some? && t.rules.regex.value != "" && rt.regexTest(t.rules.regex.value, ToStr(rt, value.value)) == Some(false)
    ensures forall e :: e in ValidateField(rt, t, value) ==>
              || (t.rules.minLength.Some? && e == MinLengthMessage(t.labelText, rt.numberText(t.rules.minLength.value)))
              || (t.rules.maxLength.Some? && e == MaxLengthMessage(t.labelText, rt.numberText(t.rules.maxLength.value)))
              || e == FormatMessage(t.labelText)
  {
    if t.rules.minLength.Some? && t.rules.maxLength.Some? {
      BoundMessagesDiffer(t.labelText, rt.numberText(t.rules.minLength.value), rt.numberText(t.rules.maxLength.value));
    } else if t.rules.minLength.Some? {
      BoundMessagesDiffer(t.labelText, rt.numberText(t.rules.minLength.value), "");
    } else if t.rules.maxLength.Some? {
      BoundMessagesDiffer(t.labelText, "", rt.numberText(t.rules.maxLength.value));
    }
  }

  /**
   * radio and select: no options gives "has no options defined"; otherwise there is
   * one error exactly when the value is not strictly equal to an option's value.
   */
  lemma ChoiceRules(rt: Runtime, t: Target, value: Option<Value>)
    requires (t.fieldType == Some(ClientTypes.Radio) || t.fieldType == Some(ClientTypes.Select)) && !Blank(value)
    ensures |t.values| == 0 ==> ValidateField(rt, t, value) == [NoOptionsMessage(t.labelText)]
    ensures |t.values| > 0 ==>
              && (ValidateField(rt, t, value) == [] <==> exists i :: 0 <= i < |t.values| && value.value == Str(t.values[i]))
              && (ValidateField(rt, t, value) != [] ==> ValidateField(rt, t, value) == [NotOneOfMessage(t.labelText)])
  {
    if |t.values| > 0 && IsOneOf(t.values, value.value) {
      var i :| 0 <= i < |t.values| && t.values[i] == value.value.s;
    }
  }

  /**
   * checkbox: anything but an array, `true` included, gets "must be an array"; an
   * array is unchecked without options, and with options it gets one
   * "contains invalid options" error however many of its elements are invalid.
   */
  lemma CheckboxRules(rt: Runtime, t: Target, value: Option<Value>)
    requires t.fieldType == Some(ClientTypes.Checkbox) && !Blank(value)
    ensures !value.value.Arr? ==> ValidateField(rt, t, value) == [NotArrayMessage(t.labelText)]
    ensures value.value.Arr? && |t.values| == 0 ==> ValidateField(rt, t, value) == []
    ensures value.value.Arr? && |t.values| > 0 ==>
              && |ValidateField(rt, t, value)| <= 1
              && (ValidateField(rt, t, value) != [] <==>
                    exists i :: 0 <= i < |value.value.items| && !IsOneOf(t.values, value.value.items[i]))
  {
    if value.value.Arr? && |t.values| > 0 {
      var items := value.value.items;
      var bad := InvalidItems(t.values, items);
      if |bad| > 0 {
        assert bad[0] in bad;
        var i :| 0 <= i < |items| && items[i] == bad[0];
      }
      if exists i :: 0 <= i < |items| && !IsOneOf(t.values, items[i]) {
        var i :| 0 <= i < |items| && !IsOneOf(t.values, items[i]);
        assert items[i] in bad;
      }
    }
  }

  /** email: an error exactly when `String(value)` does not match the pattern. */
  lemma EmailRule(rt: Runtime, t: Target, value: Option<Value>)
    requires t.fieldType == Some(ClientTypes.Email) && !Blank(value)
    ensures ValidateField(rt, t, value) == [] <==> EmailPattern(ToStr(rt, value.value))
    ensures ValidateField(rt, t, value) != [] ==> ValidateField(rt, t, value) == [EmailMessage(t.labelText)]
  {
  }

  /** date: an error exactly when `new Date(value)` is invalid. */
  lemma DateRule(rt: Runtime, t: Target, value: Option<Value>)
    requires t.fieldType == Some(ClientTypes.Date) && !Blank(value)
    ensures ValidateField(rt, t, value) == [] <==> IsValidDate(rt, value.value)
  {
  }

  /** A nested field whose type string is none of the eight names is checked only for presence. */
  lemma UnknownTypeRule(rt: Runtime, t: Target, value: Option<Value>)
    requires t.fieldType.None? && !Blank(value)
    ensures ValidateField(rt, t, value) == []
  {
  }

  predicate NoSpace(s: string) {
    forall i :: 0 <= i < |s| ==> !IsSpace(s[i])
  }

  predicate OnlyAtAt(s: string, at: int) {
    forall i :: 0 <= i < |s| && s[i] == '@' ==> i == at
  }

  /**
   * The e-mail pattern in plain terms: no white space at all, exactly one '@'
   * with something before it, and a '.' after the character following the '@'
   * that is not the last character.
   */
  predicate EmailShape(s: string) {
    && NoSpace(s)
    && exists at | 0 < at < |s| ::
         && s[at] == '@' && OnlyAtAt(s, at)
         && exists dot | at + 1 < dot < |s| - 1 :: s[dot] == '.'
  }

  lemma EmailShapeOfPattern(s: string)
    requires EmailPattern(s)
    ensures EmailShape(s)
  {
    var at, dot :| 0 <= at < |s| && 0 <= dot < |s|
      && 0 < at && at + 1 < dot < |s| - 1
      && s[at] == '@' && s[dot] == '.'
      && NoSpaceOrAt(s[..at]) && NoSpaceOrAt(s[at + 1..dot]) && NoSpaceOrAt(s[dot + 1..]);
    forall i | 0 <= i < |s| ensures !IsSpace(s[i]) && (s[i] == '@' ==> i == at) {
      if i < at { assert s[i] == s[..at][i]; }
      else if at < i < dot { assert s[i] == s[at + 1..dot][i - at - 1]; }
      else if dot < i { assert s[i] == s[dot + 1..][i - dot - 1]; }
    }
    assert OnlyAtAt(s, at);
  }

  lemma PatternOfEmailShape(s: string)
    requires EmailShape(s)
    ensures EmailPattern(s)
  {
    var at :| 0 < at < |s| && s[at] == '@' && OnlyAtAt(s, at) && exists dot | at + 1 < dot < |s| - 1 :: s[dot] == '.';
    var dot :| at + 1 < dot < |s| - 1 && s[dot] == '.';
    assert NoSpaceOrAt(s[..at]);
    assert NoSpaceOrAt(s[at + 1..dot]);
    assert NoSpaceOrAt(s[dot + 1..]);
  }

  /** The e-mail check accepts exactly the strings of `EmailShape`. */
  lemma EmailPatternShape(s: string)
    ensures EmailPattern(s) <==> EmailShape(s)
  {
    if EmailPattern(s) { EmailShapeOfPattern(s); }
    if EmailShape(s) { PatternOfEmailShape(s); }
  }

  // ----- validateSubmission: the write log it performs -----

  /** One `errors[key] = list` assignment of `validateSubmission`. */
  datatype Write = Write(key: string, errors: seq<string>)

  function OrderOf(f: Field): int { f.order }

  /** `[...form.fields].sort((a, b) => a.order - b.order)`. */
  function SortedFields(form: Form): (r: seq<Field>)
    ensures multiset(r) == multiset(form.fields)
    ensures forall i, j :: 0 <= i < j < |r| ==> r[i].order <= r[j].order
  {
    FieldOrder.SortBy(form.fields, OrderOf)
  }

  /**
   * `field.options.find(opt => opt.value === value)`: the first option whose value is that string.
   * The search runs over the stored option type; `Renderer.FindOption` is the page's search over
   * the client's option type, whose nested fields are full client fields.
   */
  function FindOption(os: seq<FieldOption>, v: Value): (r: Option<FieldOption>)
    ensures r.None? <==> forall i :: 0 <= i < |os| ==> v != Str(os[i].value)
    ensures r.Some? ==> exists i :: 0 <= i < |os| && os[i] == r.value && v == Str(os[i].value)
                                    && forall j :: 0 <= j < i ==> v != Str(os[j].value)
  {
    if |os| == 0 then None
    else if v == Str(os[0].value) then Some(os[0])
    else
      var r := FindOption(os[1..], v);
      assert forall j :: 1 <= j < |os| ==> os[j] == os[1..][j - 1];
      r
  }

  /**
   * Whether a field's answer is looked up among its options: a radio or select
   * field with a truthy value (`field.options` always holds an array, which is
   * truthy).
   */
  predicate Cascades(f: Field, value: Option<Value>) {
    (f.fieldType == ClientTypes.Radio || f.fieldType == ClientTypes.Select) && value.Some? && Truthy(value.value)
  }

  function OwnWrites(rt: Runtime, f: Field, answers: Answers): (r: seq<Write>)
    ensures |r| <= 1
  {
    var es := ValidateField(rt, TopTarget(f), Lookup(answers, f.name));
    if |es| > 0 then [Write(f.name, es)] else []
  }

  function NestedWrite(rt: Runtime, parent: string, n: NestedField, answers: Answers): (r: seq<Write>)
    ensures |r| <= 1
  {
    var key := NestedKey(parent, n.name);
    var es := ValidateField(rt, NestedTarget(n), Lookup(answers, key));
    if |es| > 0 then [Write(key, es)] else []
  }

  /** The writes of the inner `forEach` over the selected option's nested fields. */
  function NestedWrites(rt: Runtime, parent: string, ns: seq<NestedField>, answers: Answers): (r: seq<Write>)
  {
    if |ns| == 0 then []
    else NestedWrites(rt, parent, ns[..|ns| - 1], answers) + NestedWrite(rt, parent, ns[|ns| - 1], answers)
  }

  function CascadeWrites(rt: Runtime, f: Field, answers: Answers): seq<Write> {
    var value := Lookup(answers, f.name);
    if Cascades(f, value) then
      match FindOption(f.options, value.value)
      case Some(o) => NestedWrites(rt, f.name, o.nestedFields, answers)
      case None => []
    else []
  }

  /** Everything one iteration of the outer `forEach` writes, in order. */
  function FieldWrites(rt: Runtime, f: Field, answers: Answers): seq<Write> {
    OwnWrites(rt, f, answers) + CascadeWrites(rt, f, answers)
  }

  function Writes(rt: Runtime, fs: seq<Field>, answers: Answers): seq<Write> {
    if |fs| == 0 then []
    else Writes(rt, fs[..|fs| - 1], answers) + FieldWrites(rt, fs[|fs| - 1], answers)
  }

  /** Performs the writes in order on `m`: a later write to a key replaces an earlier one. */
  function Apply(m: map<string, seq<string>>, ws: seq<Write>): map<string, seq<string>> {
    if |ws| == 0 then m
    else Apply(m, ws[..|ws| - 1])[ws[|ws| - 1].key := ws[|ws| - 1].errors]
  }

  /** The `{ isValid, errors }` object `validateSubmission` returns. */
  datatype Outcome = Outcome(isValid: bool, errors: map<string, seq<string>>)

  /** What `validateSubmission(form, answers)` returns. */
  function Validate(rt: Runtime, form: Form, answers: Answers): Outcome {
    var ws := Writes(rt, SortedFields(form), answers);
    Outcome(ws == [], Apply(map[], ws))
  }

  lemma {:induction false} ApplyEmpty(m: map<string, seq<string>>, ws: seq<Write>)
    ensures ws != [] ==> Apply(m, ws) != map[]
  {
    if ws != [] {
      assert ws[|ws| - 1].key in Apply(m, ws);
    }
  }

  /** `isValid` is true exactly when the error map is empty. */
  lemma ValidIffEmptyErrors(rt: Runtime, form: Form, answers: Answers)
    ensures Validate(rt, form, answers).isValid <==> Validate(rt, form, answers).errors == map[]
  {
    ApplyEmpty(map[], Writes(rt, SortedFields(form), answers));
  }

  lemma WritesPrefix(rt: Runtime, fs: seq<Field>, i: nat, answers: Answers)
    requires i < |fs|
    ensures Writes(rt, fs[..i + 1], answers) == Writes(rt, fs[..i], answers) + FieldWrites(rt, fs[i], answers)
  {
    assert fs[..i + 1][..i] == fs[..i];
  }

  lemma NestedWritesPrefix(rt: Runtime, p: string, ns: seq<NestedField>, j: nat, answers: Answers)
    requires j < |ns|
    ensures NestedWrites(rt, p, ns[..j + 1], answers) == NestedWrites(rt, p, ns[..j], answers) + NestedWrite(rt, p, ns[j], answers)
  {
    assert ns[..j + 1][..j] == ns[..j];
  }

  lemma ApplyStep(m: map<string, seq<string>>, ws: seq<Write>, w: Write)
    ensures Apply(m, ws + [w]) == Apply(m, ws)[w.key := w.errors]
  {
    assert (ws + [w])[..|ws|] == ws;
  }

  lemma CascadeCases(rt: Runtime, f: Field, answers: Answers)
    ensures !Cascades(f, Lookup(answers, f.name)) ==> CascadeWrites(rt, f, answers) == []
    ensures Cascades(f, Lookup(answers, f.name)) && FindOption(f.options, Lookup(answers, f.name).value).None? ==>
              CascadeWrites(rt, f, answers) == []
    ensures Cascades(f, Lookup(answers, f.name)) && FindOption(f.options, Lookup(answers, f.name).value).Some? ==>
              CascadeWrites(rt, f, answers)
              == NestedWrites(rt, f.name, FindOption(f.options, Lookup(answers, f.name).value).value.nestedFields, answers)
  {
  }

  lemma ConcatAssoc(a: seq<Write>, b: seq<Write>, c: seq<Write>)
    ensures a + (b + c) == (a + b) + c
  {
  }

  lemma {:induction false} ApplyConcat(m: map<string, seq<string>>, a: seq<Write>, b: seq<Write>)
    ensures Apply(m, a + b) == Apply(Apply(m, a), b)
  {
    if b != [] {
      assert (a + b)[..|a + b| - 1] == a + b[..|b| - 1];
      ApplyConcat(m, a, b[..|b| - 1]);
    } else {
      assert a + b == a;
    }
  }

  /**
   * The inner `forEach` of `validateSubmission`: each nested field of the
   * selected option is validated against `answers[<parent>_<nested>]`, and a
   * non-empty list is stored under that key.
   */
  method ValidateNested(rt: Runtime, parent: string, nestedFields: seq<NestedField>, answers: Answers,
                        errors0: map<string, seq<string>>, hasErrors0: bool)
    returns (errors: map<string, seq<string>>, hasErrors: bool)
    ensures errors == Apply(errors0, NestedWrites(rt, parent, nestedFields, answers))
    ensures hasErrors <==> hasErrors0 || NestedWrites(rt, parent, nestedFields, answers) != []
  {
    errors, hasErrors := errors0, hasErrors0;
    for j := 0 to |nestedFields|
      invariant errors == Apply(errors0, NestedWrites(rt, parent, nestedFields[..j], answers))
      invariant hasErrors <==> hasErrors0 || NestedWrites(rt, parent, nestedFields[..j], answers) != []
    {
      NestedWritesPrefix(rt, parent, nestedFields, j, answers);
      var key := NestedKey(parent, nestedFields[j].name);
      var nestedErrors := ValidateField(rt, NestedTarget(nestedFields[j]), Lookup(answers, key));
      ghost var prior := NestedWrites(rt, parent, nestedFields[..j], answers);
      if |nestedErrors| > 0 {
        assert NestedWrite(rt, parent, nestedFields[j], answers) == [Write(key, nestedErrors)];
        ApplyStep(errors0, prior, Write(key, nestedErrors));
        errors := errors[key := nestedErrors];
        hasErrors := true;
      } else {
        assert NestedWrite(rt, parent, nestedFields[j], answers) == [];
        assert prior + [] == prior;
      }
    }
    assert nestedFields[..|nestedFields|] == nestedFields;
  }

  /**
   * `validateSubmission(form, answers)`: visits the fields in ascending order,
   * stores each non-empty error list under the field's name, and for a radio or
   * select answer that selects an option with nested fields, stores each nested
   * field's non-empty error list under `<field>_<nested>`.
   */
  method ValidateSubmission(rt: Runtime, form: Form, answers: Answers) returns (result: Outcome)
    ensures result == Validate(rt, form, answers)
    ensures result.isValid <==> result.errors == map[]
  {
    var errors: map<string, seq<string>> := map[];
    var hasErrors := false;
    var sortedFields := SortedFields(form);
    for i := 0 to |sortedFields|
      invariant errors == Apply(map[], Writes(rt, sortedFields[..i], answers))
      invariant hasErrors <==> Writes(rt, sortedFields[..i], answers) != []
    {
      WritesPrefix(rt, sortedFields, i, answers);
      errors, hasErrors := VisitField(rt, sortedFields[i], answers, errors, hasErrors, Writes(rt, sortedFields[..i], answers));
    }
    assert sortedFields[..|sortedFields|] == sortedFields;
    ApplyEmpty(map[], Writes(rt, sortedFields, answers));
    result := Outcome(!hasErrors, errors);
  }

  /** One turn of the outer `forEach`: the field's own check, then the cascade into the selected option. */
  method VisitField(rt: Runtime, field: Field, answers: Answers, errors0: map<string, seq<string>>, hasErrors0: bool,
                    ghost prior: seq<Write>)
    returns (errors: map<string, seq<string>>, hasErrors: bool)
    requires errors0 == Apply(map[], prior) && (hasErrors0 <==> prior != [])
    ensures errors == Apply(map[], prior + FieldWrites(rt, field, answers))
    ensures hasErrors <==> prior + FieldWrites(rt, field, answers) != []
  {
    ApplyConcat(map[], prior, FieldWrites(rt, field, answers));
    errors, hasErrors := errors0, hasErrors0;
    var value := Lookup(answers, field.name);
    var fieldErrors := ValidateField(rt, TopTarget(field), value);
    if |fieldErrors| > 0 {
      assert OwnWrites(rt, field, answers) == [Write(field.name, fieldErrors)];
      ApplyStep(errors0, [], Write(field.name, fieldErrors));
      errors := errors[field.name := fieldErrors];
      hasErrors := true;
    } else {
      assert OwnWrites(rt, field, answers) == [];
    }
    assert errors == Apply(errors0, OwnWrites(rt, field, answers));
    CascadeCases(rt, field, answers);
    assert FieldWrites(rt, field, answers) == OwnWrites(rt, field, answers) + CascadeWrites(rt, field, answers);
    ApplyConcat(errors0, OwnWrites(rt, field, answers), CascadeWrites(rt, field, answers));
    if (field.fieldType == ClientTypes.Radio || field.fieldType == ClientTypes.Select) && value.Some? && Truthy(value.value) {
      var selectedOption := FindOption(field.options, value.value);
      if selectedOption.Some? && |selectedOption.value.nestedFields| > 0 {
        errors, hasErrors := ValidateNested(rt, field.name, selectedOption.value.nestedFields, answers, errors, hasErrors);
      } else if selectedOption.Some? {
        assert NestedWrites(rt, field.name, selectedOption.value.nestedFields, answers) == [];
      }
    }
  }

  // ----- what validateSubmission reports -----

  /** `k` is a key field `f` can write: its own name, or `<name>_<nested>` for a nested field of one of its options. */
  predicate KeyOf(f: Field, k: string) {
    || k == f.name
    || exists o :: o in f.options && exists n :: n in o.nestedFields && k == NestedKey(f.name, n.name)
  }

  lemma {:induction false} NestedWritesShape(rt: Runtime, f: Field, o: FieldOption, ns: seq<NestedField>, answers: Answers)
    requires o in f.options && forall n :: n in ns ==> n in o.nestedFields
    ensures forall w :: w in NestedWrites(rt, f.name, ns, answers) ==> 1 <= |w.errors| <= 3 && KeyOf(f, w.key)
  {
    if |ns| > 0 {
      NestedWritesShape(rt, f, o, ns[..|ns| - 1], answers);
      assert ns[|ns| - 1] in o.nestedFields;
    }
  }

  lemma FieldWritesShape(rt: Runtime, f: Field, answers: Answers)
    ensures forall w :: w in FieldWrites(rt, f, answers) ==> 1 <= |w.errors| <= 3 && KeyOf(f, w.key)
  {
    var value := Lookup(answers, f.name);
    if Cascades(f, value) && FindOption(f.options, value.value).Some? {
      var o := FindOption(f.options, value.value).value;
      NestedWritesShape(rt, f, o, o.nestedFields, answers);
    }
  }

  lemma {:induction false} WritesShape(rt: Runtime, fs: seq<Field>, answers: Answers)
    ensures forall w :: w in Writes(rt, fs, answers) ==>
              1 <= |w.errors| <= 3 && exists i :: 0 <= i < |fs| && KeyOf(fs[i], w.key)
  {
    if |fs| > 0 {
      WritesShape(rt, fs[..|fs| - 1], answers);
      FieldWritesShape(rt, fs[|fs| - 1], answers);
      forall w | w in Writes(rt, fs, answers)
        ensures exists i :: 0 <= i < |fs| && KeyOf(fs[i], w.key)
      {
        if w in Writes(rt, fs[..|fs| - 1], answers) {
          var i :| 0 <= i < |fs| - 1 && KeyOf(fs[..|fs| - 1][i], w.key);
          assert fs[i] == fs[..|fs| - 1][i];
        } else {
          assert KeyOf(fs[|fs| - 1], w.key);
        }
      }
    }
  }

  lemma {:induction false} ApplyFrom(m: map<string, seq<string>>, ws: seq<Write>)
    ensures forall k :: k in Apply(m, ws) <==> k in m || exists w :: w in ws && w.key == k
    ensures forall k :: k in Apply(m, ws) && k !in m ==> exists w :: w in ws && w.key == k && Apply(m, ws)[k] == w.errors
  {
    if |ws| > 0 {
      ApplyFrom(m, ws[..|ws| - 1]);
      assert ws == ws[..|ws| - 1] + [ws[|ws| - 1]];
    }
  }

  /**
   * Every key of the error map is a key some field of the form can write (its
   * name, or `<name>_<nested>`), and every list under it has one to three messages.
   */
  lemma ErrorsShape(rt: Runtime, form: Form, answers: Answers)
    ensures forall k :: k in Validate(rt, form, answers).errors ==>
              && 1 <= |Validate(rt, form, answers).errors[k]| <= 3
              && exists f :: f in form.fields && KeyOf(f, k)
  {
    var sorted := SortedFields(form);
    var ws := Writes(rt, sorted, answers);
    WritesShape(rt, sorted, answers);
    ApplyFrom(map[], ws);
    forall k | k in Validate(rt, form, answers).errors
      ensures exists f :: f in form.fields && KeyOf(f, k)
    {
      var w :| w in ws && w.key == k;
      var i :| 0 <= i < |sorted| && KeyOf(sorted[i], k);
      assert sorted[i] in multiset(form.fields);
    }
  }

  /** When every write to `k` carries the same list and there is one, the map holds that list. */
  lemma {:induction false} ApplyAllSame(m: map<string, seq<string>>, ws: seq<Write>, k: string, e: seq<string>)
    requires forall w :: w in ws && w.key == k ==> w.errors == e
    ensures (exists w :: w in ws && w.key == k) ==> k in Apply(m, ws) && Apply(m, ws)[k] == e
  {
    if |ws| > 0 {
      ApplyAllSame(m, ws[..|ws| - 1], k, e);
      if ws[|ws| - 1].key != k && exists w :: w in ws && w.key == k {
        var w :| w in ws && w.key == k;
        assert w in ws[..|ws| - 1];
      }
    }
  }

  lemma {:induction false} ApplyUntouched(m: map<string, seq<string>>, ws: seq<Write>, k: string)
    requires forall w :: w in ws ==> w.key != k
    ensures (k in Apply(m, ws) <==> k in m) && (k in m ==> Apply(m, ws)[k] == m[k])
  {
    if |ws| > 0 {
      ApplyUntouched(m, ws[..|ws| - 1], k);
    }
  }

  lemma OwnKeyOnlyOwn(rt: Runtime, f: Field, answers: Answers)
    ensures forall w :: w in FieldWrites(rt, f, answers) && w.key == f.name ==>
              w.errors == ValidateField(rt, TopTarget(f), Lookup(answers, f.name))
  {
    FieldWritesShape(rt, f, answers);
    forall w | w in FieldWrites(rt, f, answers) && w.key == f.name
      ensures w.errors == ValidateField(rt, TopTarget(f), Lookup(answers, f.name))
    {
      if w !in OwnWrites(rt, f, answers) {
        var value := Lookup(answers, f.name);
        var o := FindOption(f.options, value.value).value;
        NestedKeysOfOption(rt, f.name, o.nestedFields, answers);
      }
    }
  }

  lemma {:induction false} NestedKeysOfOption(rt: Runtime, p: string, ns: seq<NestedField>, answers: Answers)
    ensures forall w :: w in NestedWrites(rt, p, ns, answers) ==> |w.key| > |p|
  {
    if |ns| > 0 {
      NestedKeysOfOption(rt, p, ns[..|ns| - 1], answers);
    }
  }

  lemma {:induction false} WritesToKey(rt: Runtime, fs: seq<Field>, f: Field, answers: Answers)
    requires forall g :: g in fs && KeyOf(g, f.name) ==> g == f
    ensures forall w :: w in Writes(rt, fs, answers) && w.key == f.name ==>
              w.errors == ValidateField(rt, TopTarget(f), Lookup(answers, f.name))
  {
    if |fs| > 0 {
      var last := fs[|fs| - 1];
      WritesToKey(rt, fs[..|fs| - 1], f, answers);
      FieldWritesShape(rt, last, answers);
      if last == f {
        OwnKeyOnlyOwn(rt, f, answers);
      }
    }
  }

  /**
   * A field whose name no other field of the form can write to is reported
   * exactly when `validateField` finds something wrong with its own answer, and
   * then with exactly that list.
   */
  lemma UniqueFieldReported(rt: Runtime, form: Form, answers: Answers, f: Field)
    requires f in form.fields
    requires forall g :: g in form.fields && KeyOf(g, f.name) ==> g == f
    ensures var own := ValidateField(rt, TopTarget(f), Lookup(answers, f.name));
            && (f.name in Validate(rt, form, answers).errors <==> own != [])
            && (own != [] ==> Validate(rt, form, answers).errors[f.name] == own)
  {
    var sorted := SortedFields(form);
    var ws := Writes(rt, sorted, answers);
    var own := ValidateField(rt, TopTarget(f), Lookup(answers, f.name));
    forall g | g in sorted && KeyOf(g, f.name) ensures g == f {
      assert g in multiset(sorted);
    }
    WritesToKey(rt, sorted, f, answers);
    ApplyFrom(map[], ws);
    if own != [] {
      assert f in multiset(form.fields);
      var i :| 0 <= i < |sorted| && sorted[i] == f;
      WritesMember(rt, sorted, i, answers);
      assert Write(f.name, own) in FieldWrites(rt, f, answers);
      ApplyAllSame(map[], ws, f.name, own);
    } else {
      forall w | w in ws ensures w.key != f.name {
        if w.key == f.name {
          assert w.errors == own;
          WritesShape(rt, sorted, answers);
        }
      }
    }
  }

  lemma {:induction false} WritesMember(rt: Runtime, fs: seq<Field>, i: nat, answers: Answers)
    requires i < |fs|
    ensures forall w :: w in FieldWrites(rt, fs[i], answers) ==> w in Writes(rt, fs, answers)
  {
    if i < |fs| - 1 {
      WritesMember(rt, fs[..|fs| - 1], i, answers);
    }
  }

  lemma SortTwo(a: Field, b: Field)
    requires a.order < b.order
    ensures FieldOrder.SortBy([b, a], OrderOf) == [a, b]
  {
    assert [b, a][1..] == [a];
    assert FieldOrder.SortBy([a], OrderOf) == [a];
  }

  lemma WritesTwo(rt: Runtime, a: Field, b: Field, answers: Answers)
    ensures Writes(rt, [a, b], answers) == FieldWrites(rt, a, answers) + FieldWrites(rt, b, answers)
  {
    assert [a, b][..1] == [a];
    assert [a][..0] == [];
    assert Writes(rt, [a], answers) == [] + FieldWrites(rt, a, answers);
    assert [] + FieldWrites(rt, a, answers) == FieldWrites(rt, a, answers);
  }

  /** The last write to a key decides what the key holds afterwards. */
  lemma {:induction false} ApplyLastWrite(m: map<string, seq<string>>, ws: seq<Write>, j: nat)
    requires j < |ws|
    requires forall l :: j < l < |ws| ==> ws[l].key != ws[j].key
    ensures ws[j].key in Apply(m, ws) && Apply(m, ws)[ws[j].key] == ws[j].errors
  {
    if j < |ws| - 1 {
      var init := ws[..|ws| - 1];
      assert forall l :: j < l < |init| ==> init[l] == ws[l];
      ApplyLastWrite(m, init, j);
    }
  }

  /** Over any write log: a key is held iff some write targets it, with the last such write's messages. */
  lemma ApplyKeepsLastWrites(ws: seq<Write>, k: string)
    ensures k in Apply(map[], ws) <==> exists j :: 0 <= j < |ws| && ws[j].key == k
    ensures forall j :: 0 <= j < |ws| && ws[j].key == k && (forall l :: j < l < |ws| ==> ws[l].key != k)
              ==> Apply(map[], ws)[k] == ws[j].errors
  {
    ApplyFrom(map[], ws);
    assert (exists w :: w in ws && w.key == k) <==> exists j :: 0 <= j < |ws| && ws[j].key == k;
    forall j | 0 <= j < |ws| && ws[j].key == k && (forall l :: j < l < |ws| ==> ws[l].key != k)
      ensures Apply(map[], ws)[k] == ws[j].errors
    {
      ApplyLastWrite(map[], ws, j);
    }
  }

  /**
   * Later writes win, for every key and every form: the error map holds a key
   * exactly when some write of the visit (own check or cascade, in ascending
   * `order`) targets it, and then the messages of the last such write. This
   * covers two fields with one name as well as a nested key `<p>_<n>` that
   * collides with a top-level field of that name.
   */
  lemma ErrorsAreLastWrites(rt: Runtime, form: Form, answers: Answers, k: string)
    ensures var ws := Writes(rt, SortedFields(form), answers);
            && (k in Validate(rt, form, answers).errors <==> exists j :: 0 <= j < |ws| && ws[j].key == k)
            && forall j :: 0 <= j < |ws| && ws[j].key == k && (forall l :: j < l < |ws| ==> ws[l].key != k)
                 ==> Validate(rt, form, answers).errors[k] == ws[j].errors
  {
    ApplyKeepsLastWrites(Writes(rt, SortedFields(form), answers), k);
  }

  /**
   * Two fields with the same name: when both have errors, the one visited later
   * (larger `order`) overwrites the earlier list, wherever it stands in `fields`.
   */
  lemma LaterFieldOverwrites(rt: Runtime, a: Field, b: Field, answers: Answers)
    requires a.name == b.name && a.order < b.order
    requires ValidateField(rt, TopTarget(b), Lookup(answers, b.name)) != []
    requires !Cascades(b, Lookup(answers, b.name))
    ensures Validate(rt, Form("", "", [b, a], 1, true, 0, 0), answers).errors
            == Apply(map[], FieldWrites(rt, a, answers))[b.name := ValidateField(rt, TopTarget(b), Lookup(answers, b.name))]
  {
    SortTwo(a, b);
    WritesTwo(rt, a, b, answers);
    var wb := Write(b.name, ValidateField(rt, TopTarget(b), Lookup(answers, b.name)));
    assert FieldWrites(rt, b, answers) == [wb];
    ApplyStep(map[], FieldWrites(rt, a, answers), wb);
  }

  /** `isValid` is false exactly when some field of the form, in any order, produces a write. */
  lemma ValidIffNoWrites(rt: Runtime, form: Form, answers: Answers)
    ensures Validate(rt, form, answers).isValid <==> forall f :: f in form.fields ==> FieldWrites(rt, f, answers) == []
  {
    var sorted := SortedFields(form);
    WritesEmpty(rt, sorted, answers);
    forall f ensures f in sorted <==> f in form.fields {
      assert f in sorted <==> f in multiset(sorted);
    }
  }

  lemma {:induction false} WritesEmpty(rt: Runtime, fs: seq<Field>, answers: Answers)
    ensures Writes(rt, fs, answers) == [] <==> forall f :: f in fs ==> FieldWrites(rt, f, answers) == []
  {
    if |fs| > 0 {
      WritesEmpty(rt, fs[..|fs| - 1], answers);
      assert fs == fs[..|fs| - 1] + [fs[|fs| - 1]];
    }
  }

  /** A field produces no write exactly when its own answer and every nested answer it selects pass. */
  lemma FieldWritesEmpty(rt: Runtime, f: Field, answers: Answers)
    ensures FieldWrites(rt, f, answers) == [] <==>
      && ValidateField(rt, TopTarget(f), Lookup(answers, f.name)) == []
      && (Cascades(f, Lookup(answers, f.name)) && FindOption(f.options, Lookup(answers, f.name).value).Some? ==>
            forall n :: n in FindOption(f.options, Lookup(answers, f.name).value).value.nestedFields ==>
              ValidateField(rt, NestedTarget(n), Lookup(answers, NestedKey(f.name, n.name))) == [])
  {
    var value := Lookup(answers, f.name);
    if Cascades(f, value) && FindOption(f.options, value.value).Some? {
      NestedWritesEmpty(rt, f.name, FindOption(f.options, value.value).value.nestedFields, answers);
    }
  }

  lemma {:induction false} NestedWritesEmpty(rt: Runtime, p: string, ns: seq<NestedField>, answers: Answers)
    ensures NestedWrites(rt, p, ns, answers) == [] <==>
              forall n :: n in ns ==> ValidateField(rt, NestedTarget(n), Lookup(answers, NestedKey(p, n.name))) == []
  {
    if |ns| > 0 {
      NestedWritesEmpty(rt, p, ns[..|ns| - 1], answers);
      assert ns == ns[..|ns| - 1] + [ns[|ns| - 1]];
    }
  }

  // ----- worked cases -----

  function OneFieldForm(f: Field): Form {
    Form("", "", [f], 1, true, 0, 0)
  }

  lemma OneField(rt: Runtime, f: Field, answers: Answers)
    ensures Validate(rt, OneFieldForm(f), answers) == Outcome(FieldWrites(rt, f, answers) == [], Apply(map[], FieldWrites(rt, f, answers)))
  {
    assert [f][1..] == [];
    assert SortedFields(OneFieldForm(f)) == [f];
    assert [f][..0] == [];
    assert Writes(rt, [f], answers) == [] + FieldWrites(rt, f, answers);
    assert [] + FieldWrites(rt, f, answers) == FieldWrites(rt, f, answers);
  }

  /** A required checkbox `agree` without options. */
  const Agree := Field(None, "agree", ClientTypes.Checkbox, "agree", true, [], NoValidation, 0)

  lemma OwnOnly(rt: Runtime, f: Field, answers: Answers, es: seq<string>)
    requires ValidateField(rt, TopTarget(f), Lookup(answers, f.name)) == es != []
    requires !Cascades(f, Lookup(answers, f.name))
    ensures Validate(rt, OneFieldForm(f), answers) == Outcome(false, map[f.name := es])
  {
    OneField(rt, f, answers);
    assert FieldWrites(rt, f, answers) == [Write(f.name, es)] + [];
  }

  /** No answer: the required message, under the field's name, built from its label. */
  lemma AgreeMissing(rt: Runtime)
    ensures Validate(rt, OneFieldForm(Agree), map[]) == Outcome(false, map["agree" := [RequiredMessage("agree")]])
  {
    OwnOnly(rt, Agree, map[], [RequiredMessage("agree")]);
  }

  // ----- field names that a plain object inherits -----

  /**
   * The presence test of `validateField` on what `answers[field.name]` reads in
   * the engine, inherited members included: it fails only on a blank read.
   */
  predicate PresenceFailsAsWritten(t: Target, r: Read) {
    t.required && ReadIsBlank(r)
  }

  /**
   * As written, a required field named like an `Object.prototype` member
   * ("constructor", "toString", ...) is never found missing: without an own
   * answer the read yields the inherited function, which is not blank.
   */
  lemma InheritedNameNeverMissing(f: Field, answers: Answers)
    requires f.required && IsInheritedName(f.name) && f.name !in answers
    ensures !PresenceFailsAsWritten(TopTarget(f), PropertyRead(answers, f.name))
  {
  }

  /**
   * Reading own properties only, as the model does, a required field without an
   * answer is reported missing whatever its name, provided no other field writes
   * under that name.
   */
  lemma MissingRequiredReported(rt: Runtime, form: Form, answers: Answers, f: Field)
    requires f in form.fields && f.required && f.name !in answers
    requires forall g :: g in form.fields && KeyOf(g, f.name) ==> g == f
    ensures f.name in Validate(rt, form, answers).errors
    ensures Validate(rt, form, answers).errors[f.name] == [RequiredMessage(f.labelText)]
  {
    UniqueFieldReported(rt, form, answers, f);
  }

  /** A required text field labelled "Constructor", whose slug is its name. */
  const Constructor := Field(None, "Constructor", ClientTypes.Text, "constructor", true, [], NoValidation, 0)

  /** With no answer, the field `constructor` is reported missing like any other. */
  lemma ConstructorMissing(rt: Runtime)
    ensures Validate(rt, OneFieldForm(Constructor), map[]) == Outcome(false, map["constructor" := [RequiredMessage("Constructor")]])
  {
    OwnOnly(rt, Constructor, map[], [RequiredMessage("Constructor")]);
  }

  lemma AgreeCheckedField(rt: Runtime)
    ensures ValidateField(rt, TopTarget(Agree), Some(Bool(true))) == [NotArrayMessage("agree")]
  {
  }

  /** The answer `true`, which the single-checkbox widget sends, is refused as not an array. */
  lemma AgreeChecked(rt: Runtime)
    ensures Validate(rt, OneFieldForm(Agree), map["agree" := Bool(true)]) == Outcome(false, map["agree" := [NotArrayMessage("agree")]])
  {
    AgreeCheckedField(rt);
    OwnOnly(rt, Agree, map["agree" := Bool(true)], [NotArrayMessage("agree")]);
  }

  /** A number field `age` with bounds 18 and 65. */
  const Age := Field(None, "age", ClientTypes.Number, "age", false, [], Validation(Some(18.0), Some(65.0), None, None, None), 0)

  lemma AgeTooHighField(rt: Runtime)
    ensures ValidateField(rt, TopTarget(Age), Some(Num(70.0))) == [AtMostMessage("age", rt.numberText(65.0))]
  {
    assert ToNumber(rt, Num(70.0)) == Some(70.0);
    assert NumberErrors(rt, TopTarget(Age), Num(70.0)) == [] + [AtMostMessage("age", rt.numberText(65.0))];
  }

  /** 70 breaks only the upper bound. */
  lemma AgeTooHigh(rt: Runtime)
    ensures Validate(rt, OneFieldForm(Age), map["age" := Num(70.0)])
            == Outcome(false, map["age" := [AtMostMessage("age", rt.numberText(65.0))]])
  {
    AgeTooHighField(rt);
    OwnOnly(rt, Age, map["age" := Num(70.0)], [AtMostMessage("age", rt.numberText(65.0))]);
  }

  lemma AgeNotANumberField(rt: Runtime)
    requires rt.parseNumber("abc").None?
    ensures ValidateField(rt, TopTarget(Age), Some(Str("abc"))) == [NotNumberMessage("age")]
  {
  }

  /** A value `Number` cannot read gets the one "must be a number" message and no bound message. */
  lemma AgeNotANumber(rt: Runtime)
    requires rt.parseNumber("abc").None?
    ensures Validate(rt, OneFieldForm(Age), map["age" := Str("abc")]) == Outcome(false, map["age" := [NotNumberMessage("age")]])
  {
    AgeNotANumberField(rt);
    OwnOnly(rt, Age, map["age" := Str("abc")], [NotNumberMessage("age")]);
  }

  /** A text field `initial` allowing at most one character. */
  const Initial := Field(None, "initial", ClientTypes.Text, "initial", false, [], Validation(None, None, None, None, Some(1.0)), 0)

  /** One emoji is one character but two UTF-16 code units, so it breaks a maximum length of 1. */
  lemma EmojiTooLong(rt: Runtime)
    ensures ValidateField(rt, TopTarget(Initial), Some(Str("\U{1F600}"))) == [MaxLengthMessage("initial", rt.numberText(1.0))]
  {
    assert Utf16Length("\U{1F600}") == 2 by {
      assert "\U{1F600}"[1..] == [];
    }
  }

  const Details := NestedField("Details", "text", "details", true, [])

  /** A select `country` whose option "other" carries a required nested text field `details`. */
  const Country := Field(None, "Country", ClientTypes.Select, "country", false,
                         [FieldOption("Other", "other", [Details])], NoValidation, 0)

  lemma DetailsMissing(rt: Runtime, answers: Answers)
    requires "country_details" !in answers
    ensures NestedWrites(rt, "country", [Details], answers) == [Write("country_details", [RequiredMessage("Details")])]
  {
    assert NestedKey("country", "details") == "country_details";
    assert NestedWrite(rt, "country", Details, answers) == [Write("country_details", [RequiredMessage("Details")])];
    assert [Details][..0] == [];
  }

  lemma CountryOtherField(rt: Runtime)
    ensures ValidateField(rt, TopTarget(Country), Some(Str("other"))) == []
  {
    assert OptionValues(Country.options) == ["other"];
  }

  /** Selecting "other" without `country_details` reports the nested field under the compound key. */
  lemma CountryOtherNeedsDetails(rt: Runtime)
    ensures Validate(rt, OneFieldForm(Country), map["country" := Str("other")])
            == Outcome(false, map["country_details" := [RequiredMessage("Details")]])
  {
    var answers := map["country" := Str("other")];
    OneField(rt, Country, answers);
    CountryOtherField(rt);
    assert FindOption(Country.options, Str("other")) == Some(Country.options[0]);
    DetailsMissing(rt, answers);
    assert FieldWrites(rt, Country, answers) == [] + [Write("country_details", [RequiredMessage("Details")])];
  }

  lemma CountryUnknownField(rt: Runtime)
    ensures ValidateField(rt, TopTarget(Country), Some(Str("us"))) == [NotOneOfMessage("Country")]
  {
    assert OptionValues(Country.options) == ["other"];
  }

  /** A value matching no option reports only the field itself, whatever `country_details` holds. */
  lemma CountryUnknownNoNested(rt: Runtime, answers: Answers)
    requires "country" in answers && answers["country"] == Str("us")
    ensures Validate(rt, OneFieldForm(Country), answers)
            == Outcome(false, map["country" := [NotOneOfMessage("Country")]])
  {
    OneField(rt, Country, answers);
    CountryUnknownField(rt);
    assert FindOption(Country.options, Str("us")) == None;
    assert FieldWrites(rt, Country, answers) == [Write("country", [NotOneOfMessage("Country")])] + [];
  }
}
