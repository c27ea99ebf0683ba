/**
 * The form editor's list operations (client/src/components/AdminPanel.tsx):
 * adding or replacing a field, deleting a field, drag-reordering, the name
 * slug derived from a label, the field dialog's submit, the option list
 * handlers, the nested-field list, and how an answer is shown in the
 * submissions table. Every operation builds the new list the editor then
 * sends as the form's `fields`.
 */
module Editor {
  import opened Wrappers
  import opened Js
  import opened ClientTypes
  import FieldOrder

  // ----- handleAddField -----

  /** `Math.max(...fields.map(f => f.order))`, with -1 for an empty list. */
  function MaxOrder(fields: seq<Field>): (m: int)
    ensures |fields| == 0 ==> m == -1
    ensures forall i :: 0 <= i < |fields| ==> fields[i].order <= m
    ensures |fields| > 0 ==> exists i :: 0 <= i < |fields| && fields[i].order == m
  {
    if |fields| == 0 then -1
    else
      var m := MaxOrder(fields[..|fields| - 1]);
      var last := fields[|fields| - 1].order;
      assert forall i :: 0 <= i < |fields| - 1 ==> fields[i] == fields[..|fields| - 1][i];
      if |fields| == 1 || last > m then last else m
  }

  /** `fields.findIndex(f => f._id === id)`: the first index holding that id, or -1. */
  function FindIndex(fields: seq<Field>, id: Option<string>): (r: int)
    ensures -1 <= r < |fields|
    ensures r == -1 <==> forall i :: 0 <= i < |fields| ==> fields[i].id != id
    ensures r >= 0 ==> fields[r].id == id && forall i :: 0 <= i < r ==> fields[i].id != id
  {
    if |fields| == 0 then -1
    else if fields[0].id == id then 0
    else
      var r := FindIndex(fields[1..], id);
      assert forall i :: 1 <= i < |fields| ==> fields[i] == fields[1..][i - 1];
      if r == -1 then -1 else r + 1
  }

  /** `editingField && editingField._id`: a field with a non-empty id is being edited. */
  predicate EditsExisting(editing: Option<Field>) {
    editing.Some? && editing.value.id.Some? && editing.value.id.value != ""
  }

  /**
   * `handleAddField(field)`: when a stored field is being edited, the first
   * field with its id is replaced by the dialog's field carrying the edited
   * field's id and order (and nothing happens if none has it); otherwise the
   * dialog's field is appended with order one above the largest, or 0.
   */
  method AddField(fields: seq<Field>, field: Field, editing: Option<Field>) returns (updated: seq<Field>)
    ensures EditsExisting(editing) ==>
              && |updated| == |fields|
              && ((forall i :: 0 <= i < |fields| ==> fields[i].id != editing.value.id) ==> updated == fields)
              && forall i :: 0 <= i < |fields| && updated[i] != fields[i] ==>
                   && fields[i].id == editing.value.id
                   && (forall j :: 0 <= j < i ==> fields[j].id != editing.value.id)
                   && updated[i] == field.(id := editing.value.id, order := editing.value.order)
    ensures EditsExisting(editing) && (exists i :: 0 <= i < |fields| && fields[i].id == editing.value.id) ==>
              exists i :: 0 <= i < |fields| && fields[i].id == editing.value.id
                && (forall j :: 0 <= j < i ==> fields[j].id != editing.value.id)
                && updated == fields[i := field.(id := editing.value.id, order := editing.value.order)]
    ensures !EditsExisting(editing) ==>
              && |updated| == |fields| + 1
              && updated[..|fields|] == fields
              && updated[|fields|] == field.(order := updated[|fields|].order)
              && (forall i :: 0 <= i < |fields| ==> fields[i].order < updated[|fields|].order)
              && (|fields| == 0 ==> updated[0].order == 0)
              && (|fields| > 0 ==> exists i :: 0 <= i < |fields| && fields[i].order == updated[|fields|].order - 1)
  {
    updated := fields;
    if EditsExisting(editing) {
      var index := FindIndex(updated, editing.value.id);
      if index >= 0 {
        updated := updated[index := field.(id := editing.value.id, order := editing.value.order)];
      }
    } else {
      var maxOrder := MaxOrder(updated);
      updated := updated + [field.(order := maxOrder + 1)];
      assert updated[..|fields|] == fields;
    }
  }

  // ----- handleDeleteField -----

  /** `fields.filter(f => f._id !== fieldId)`. */
  function DeleteField(fields: seq<Field>, fieldId: string): (r: seq<Field>)
    ensures forall f :: f in r <==> f in fields && f.id != Some(fieldId)
    ensures |r| <= |fields|
  {
    if |fields| == 0 then []
    else DeleteField(fields[..|fields| - 1], fieldId)
         + (if fields[|fields| - 1].id == Some(fieldId) then [] else [fields[|fields| - 1]])
  }

  /**
   * Deleting works piecewise on any split of the list, so the surviving fields
   * keep their relative order.
   */
  lemma {:induction false} DeleteKeepsOrder(a: seq<Field>, b: seq<Field>, fieldId: string)
    ensures DeleteField(a + b, fieldId) == DeleteField(a, fieldId) + DeleteField(b, fieldId)
  {
    if |b| == 0 {
      assert a + b == a;
    } else {
      assert (a + b)[..|a + b| - 1] == a + b[..|b| - 1];
      DeleteKeepsOrder(a, b[..|b| - 1], fieldId);
    }
  }

  /** A list without the id is left exactly as it was. */
  lemma {:induction false} DeleteAbsent(fields: seq<Field>, fieldId: string)
    requires forall i :: 0 <= i < |fields| ==> fields[i].id != Some(fieldId)
    ensures DeleteField(fields, fieldId) == fields
  {
    if |fields| > 0 {
      DeleteAbsent(fields[..|fields| - 1], fieldId);
      assert fields[..|fields| - 1] + [fields[|fields| - 1]] == fields;
    }
  }

  // ----- handleReorderFields -----

  /** The two `splice` calls: take out the element at `from`, put it back at `to`. */
  function Moved<T>(s: seq<T>, from: nat, to: nat): (r: seq<T>)
    requires from < |s| && to < |s|
    ensures |r| == |s|
  {
    var rest := s[..from] + s[from + 1..];
    rest[..to] + [s[from]] + rest[to..]
  }

  /** The list with the element at `i` taken out. */
  function RemoveAt<T>(s: seq<T>, i: nat): (r: seq<T>)
    requires i < |s|
    ensures |r| == |s| - 1
  {
    s[..i] + s[i + 1..]
  }

  /**
   * The move puts the dragged element at `to`, is a permutation, and leaves
   * every other element in its relative order.
   */
  lemma MovedSpec<T>(s: seq<T>, from: nat, to: nat)
    requires from < |s| && to < |s|
    ensures Moved(s, from, to)[to] == s[from]
    ensures multiset(Moved(s, from, to)) == multiset(s)
    ensures RemoveAt(Moved(s, from, to), to) == RemoveAt(s, from)
  {
    var rest := s[..from] + s[from + 1..];
    var r := Moved(s, from, to);
    assert r == rest[..to] + ([s[from]] + rest[to..]);
    assert r[..to] == rest[..to];
    assert r[to + 1..] == rest[to..];
    assert rest[..to] + rest[to..] == rest;
    assert s[..from] + [s[from]] + s[from + 1..] == s;
    calc {
      multiset(r);
      multiset(rest[..to]) + multiset([s[from]]) + multiset(rest[to..]);
      multiset(rest) + multiset([s[from]]);
      multiset(s[..from]) + multiset(s[from + 1..]) + multiset([s[from]]);
      multiset(s[..from] + [s[from]] + s[from + 1..]);
    }
  }

  /** The `forEach` that sets each field's `order` to its index. */
  function Renumbered(s: seq<Field>): (r: seq<Field>)
    ensures |r| == |s|
    ensures forall i :: 0 <= i < |s| ==> r[i] == s[i].(order := i)
  {
    seq(|s|, i requires 0 <= i < |s| => s[i].(order := i))
  }

  /**
   * `handleReorderFields(startIndex, endIndex)` on the stored list: the element
   * at `startIndex` moves to `endIndex`, then every field's order becomes its index.
   */
  method ReorderFields(fields: seq<Field>, startIndex: nat, endIndex: nat) returns (updated: seq<Field>)
    requires startIndex < |fields| && endIndex < |fields|
    ensures updated == Renumbered(Moved(fields, startIndex, endIndex))
  {
    var removed := fields[startIndex];
    updated := fields[..startIndex] + fields[startIndex + 1..];
    updated := updated[..endIndex] + [removed] + updated[endIndex..];
    var moved := updated;
    for index := 0 to |updated|
      invariant |updated| == |moved|
      invariant forall i :: 0 <= i < index ==> updated[i] == moved[i].(order := i)
      invariant forall i :: index <= i < |updated| ==> updated[i] == moved[i]
    {
      updated := updated[index := updated[index].(order := index)];
    }
  }

  /** Orders after a reorder are exactly 0 .. n-1, and the dragged field lands at `endIndex`. */
  lemma ReorderSpec(fields: seq<Field>, startIndex: nat, endIndex: nat)
    requires startIndex < |fields| && endIndex < |fields|
    ensures var r := Renumbered(Moved(fields, startIndex, endIndex));
            && |r| == |fields|
            && (forall i :: 0 <= i < |r| ==> r[i].order == i)
            && r[endIndex] == fields[startIndex].(order := endIndex)
            && multiset(Moved(fields, startIndex, endIndex)) == multiset(fields)
  {
    MovedSpec(fields, startIndex, endIndex);
  }

  function OrderOf(f: Field): int { f.order }

  /**
   * As written, the indices come from the list shown (sorted by `order`) but
   * are applied to the stored list. Stored [A (order 1), B (order 0)] is shown
   * as [B, A]; dragging B (shown index 0) onto index 1 moves A instead, and the
   * list comes back as [B, A] again.
   */
  lemma ReorderMovesWrongField(a: Field, b: Field)
    requires a.order == 1 && b.order == 0 && a.id == Some("a") && b.id == Some("b")
    ensures FieldOrder.SortBy([a, b], OrderOf) == [b, a]
    ensures Renumbered(Moved([a, b], 0, 1))[1].id == a.id != b.id
    ensures Renumbered(Moved([a, b], 0, 1)) == [b.(order := 0), a.(order := 1)]
  {
    assert [a, b][1..] == [b];
    assert FieldOrder.SortBy([b], OrderOf) == [b];
    var s := [a, b];
    assert s[..0] + s[1..] == [b];
    assert Moved(s, 0, 1) == [b, a];
  }

  /** The reorder applied to the list as shown, which is what the drag indices refer to. */
  function ReorderShown(fields: seq<Field>, startIndex: nat, endIndex: nat): (r: seq<Field>)
    requires startIndex < |fields| && endIndex < |fields|
  {
    Renumbered(Moved(FieldOrder.SortBy(fields, OrderOf), startIndex, endIndex))
  }

  /** Applied to the list as shown, the field dragged from `startIndex` is the one that lands at `endIndex`. */
  lemma ReorderShownMovesDragged(fields: seq<Field>, startIndex: nat, endIndex: nat)
    requires startIndex < |fields| && endIndex < |fields|
    ensures var shown := FieldOrder.SortBy(fields, OrderOf);
            && ReorderShown(fields, startIndex, endIndex)[endIndex] == shown[startIndex].(order := endIndex)
            && multiset(Moved(shown, startIndex, endIndex)) == multiset(fields)
            && forall i :: 0 <= i < |fields| ==> ReorderShown(fields, startIndex, endIndex)[i].order == i
  {
    var shown := FieldOrder.SortBy(fields, OrderOf);
    MovedSpec(shown, startIndex, endIndex);
  }

  // ----- the name slug -----

  predicate IsSlugChar(c: char) {
    ('a' <= c <= 'z') || ('0' <= c <= '9')
  }

  /** Drops the leading characters outside [a-z0-9]. */
  function SkipRun(s: string): (r: string)
    ensures |r| <= |s| && r == s[|s| - |r|..]
    ensures r == [] || IsSlugChar(r[0])
  {
    if s != [] && !IsSlugChar(s[0]) then SkipRun(s[1..]) else s
  }

  predicate SlugText(s: string) {
    forall i :: 0 <= i < |s| ==> IsSlugChar(s[i]) || s[i] == '-'
  }

  predicate NoDoubleDash(s: string) {
    forall i :: 0 <= i < |s| - 1 ==> !(s[i] == '-' && s[i + 1] == '-')
  }

  /** `.replace(/[^a-z0-9]+/g, '-')`: every maximal run outside [a-z0-9] becomes one '-'. */
  function CollapseRuns(s: string): (r: string)
    ensures SlugText(r) && NoDoubleDash(r)
    ensures s != [] && IsSlugChar(s[0]) ==> r != [] && r[0] == s[0]
    decreases |s|
  {
    if s == [] then []
    else if IsSlugChar(s[0]) then [s[0]] + CollapseRuns(s[1..])
    else "-" + CollapseRuns(SkipRun(s))
  }

  /** `.replace(/^-|-$/g, '')`: one leading and one trailing '-' go. */
  function StripDashes(s: string): string {
    var t := if |s| > 0 && s[0] == '-' then s[1..] else s;
    if |t| > 0 && t[|t| - 1] == '-' then t[..|t| - 1] else t
  }

  /** The name the dialog derives from a label. */
  function Slug(labelText: string): string {
    StripDashes(CollapseRuns(LowerAll(labelText)))
  }

  /** The slug holds only [a-z0-9-], never "--", and neither starts nor ends with '-'. */
  lemma SlugShape(labelText: string)
    ensures var s := Slug(labelText);
            && SlugText(s) && NoDoubleDash(s)
            && (s != [] ==> s[0] != '-' && s[|s| - 1] != '-')
  {
    var c := CollapseRuns(LowerAll(labelText));
    var t := if |c| > 0 && c[0] == '-' then c[1..] else c;
    assert SlugText(t) && NoDoubleDash(t);
    assert |t| > 0 ==> t[0] != '-';
  }

  lemma {:induction false} CollapseOfSlug(s: string)
    requires SlugText(s) && NoDoubleDash(s)
    requires s == [] || s[0] != '-' || |s| == 1 || IsSlugChar(s[1])
    ensures CollapseRuns(s) == s
    decreases |s|
  {
    if s != [] {
      SlugTail(s);
      CollapseOfSlug(s[1..]);
      if IsSlugChar(s[0]) {
        assert [s[0]] + s[1..] == s;
      } else {
        assert SkipRun(s) == s[1..] by {
          assert s[1..] == [] || IsSlugChar(s[1]);
        }
        assert "-" + s[1..] == s;
      }
    }
  }

  /** Dropping the first character of slug text leaves slug text that does not start with "--". */
  lemma SlugTail(s: string)
    requires s != [] && SlugText(s) && NoDoubleDash(s)
    ensures var t := s[1..];
            && SlugText(t) && NoDoubleDash(t)
            && (t == [] || t[0] != '-' || |t| == 1 || IsSlugChar(t[1]))
  {
    var t := s[1..];
    assert forall i :: 0 <= i < |t| ==> t[i] == s[i + 1];
    if |t| > 1 && t[0] == '-' {
      assert !(s[1] == '-' && s[2] == '-');
    }
  }

  lemma {:induction false} LowerOfSlug(s: string)
    requires SlugText(s)
    ensures LowerAll(s) == s
  {
  }

  /** Slugging a slug gives it back: the derived name is already in slug form. */
  lemma SlugIdempotent(labelText: string)
    ensures Slug(Slug(labelText)) == Slug(labelText)
  {
    var s := Slug(labelText);
    SlugShape(labelText);
    LowerOfSlug(s);
    CollapseOfSlug(s);
  }

  /** The effect: a name is derived only while the name is empty and the label is not. */
  function SlugEffect(name: string, labelText: string): (r: Option<string>)
    ensures r.Some? <==> name == "" && labelText != ""
    ensures r.Some? ==> r.value == Slug(labelText)
  {
    if name == "" && labelText != "" then Some(Slug(labelText)) else None
  }

  // ----- the field dialog -----

  /** The dialog's state when it is submitted. */
  datatype Draft = Draft(
    labelText: string, fieldType: FieldType, name: string, required: bool,
    options: seq<FieldOption>, validation: ValidationRules)

  /**
   * `handleSubmit`: a blank trimmed label or name submits nothing; otherwise the
   * field carries the trimmed label and name, the edited field's order (or 0),
   * and `options` and `validation` only when they are non-empty.
   */
  function SubmitField(d: Draft, editing: Option<Field>): (r: Option<Field>)
    ensures r.None? <==> Trim(d.labelText) == "" || Trim(d.name) == ""
    ensures r.Some? ==>
              && r.value.labelText == Trim(d.labelText) && r.value.name == Trim(d.name)
              && r.value.fieldType == d.fieldType && r.value.required == d.required
              && r.value.id.None?
              && r.value.order == (if editing.Some? then editing.value.order else 0)
              && (r.value.options.Some? <==> |d.options| > 0)
              && (r.value.options.Some? ==> r.value.options.value == d.options)
              && (r.value.validation.Some? <==> KeyCount(d.validation) > 0)
              && (r.value.validation.Some? ==> r.value.validation.value == d.validation)
  {
    if Trim(d.labelText) == "" || Trim(d.name) == "" then None
    else
      Some(Field(
        None, Trim(d.labelText), d.fieldType, Trim(d.name), d.required,
        if |d.options| > 0 then Some(d.options) else None,
        if KeyCount(d.validation) > 0 then Some(d.validation) else None,
        if editing.Some? then editing.value.order else 0))
  }

  /** A submitted label and name are non-empty and carry no outer white space. */
  lemma SubmittedIsTrimmed(d: Draft, editing: Option<Field>)
    requires SubmitField(d, editing).Some?
    ensures var f := SubmitField(d, editing).value;
            f.labelText != "" && f.name != "" && Trim(f.labelText) == f.labelText && Trim(f.name) == f.name
  {
    TrimIdempotent(d.labelText);
    TrimIdempotent(d.name);
  }

  // ----- the option list -----

  /** `handleAddOption`: a blank option at the end. */
  function AddOption(options: seq<FieldOption>): (r: seq<FieldOption>)
    ensures |r| == |options| + 1 && r[..|options|] == options
    ensures r[|options|] == FieldOption("", "", None)
  {
    options + [FieldOption("", "", None)]
  }

  /** The keys an update carries; `nestedFields` may also be set to undefined. */
  datatype OptionUpdate = OptionUpdate(labelText: Option<string>, value: Option<string>, nestedFields: Slot<seq<Field>>)

  /** `{ ...option, ...updates }`. */
  function MergeOption(o: FieldOption, u: OptionUpdate): (r: FieldOption)
    ensures r.labelText == (if u.labelText.Some? then u.labelText.value else o.labelText)
    ensures r.value == (if u.value.Some? then u.value.value else o.value)
    ensures u.nestedFields.Absent? ==> r.nestedFields == o.nestedFields
    ensures u.nestedFields.Undefined? ==> r.nestedFields.None?
    ensures u.nestedFields.Present? ==> r.nestedFields == Some(u.nestedFields.value)
  {
    FieldOption(
      if u.labelText.Some? then u.labelText.value else o.labelText,
      if u.value.Some? then u.value.value else o.value,
      match u.nestedFields
      case Absent => o.nestedFields
      case Undefined => None
      case Present(v) => Some(v))
  }

  /** `handleUpdateOption(index, updates)`: only the option at `index` changes, by the given keys. */
  function UpdateOption(options: seq<FieldOption>, index: nat, u: OptionUpdate): (r: seq<FieldOption>)
    requires index < |options|
    ensures |r| == |options|
    ensures forall j :: 0 <= j < |options| && j != index ==> r[j] == options[j]
    ensures r[index] == MergeOption(options[index], u)
  {
    options[index := MergeOption(options[index], u)]
  }

  /** An update that carries no key leaves the list as it was. */
  lemma EmptyUpdateKeepsOptions(options: seq<FieldOption>, index: nat)
    requires index < |options|
    ensures UpdateOption(options, index, OptionUpdate(None, None, Absent)) == options
  {
  }

  /** `options.filter((_, i) => i !== index)`. */
  function DeleteOption(options: seq<FieldOption>, index: int): (r: seq<FieldOption>) {
    if |options| == 0 then []
    else DeleteOption(options[..|options| - 1], index)
         + (if |options| - 1 == index then [] else [options[|options| - 1]])
  }

  /** Exactly the option at `index` goes; an index outside the list removes nothing. */
  lemma {:induction false} DeleteOptionSpec(options: seq<FieldOption>, index: int)
    ensures 0 <= index < |options| ==> DeleteOption(options, index) == options[..index] + options[index + 1..]
    ensures !(0 <= index < |options|) ==> DeleteOption(options, index) == options
  {
    if |options| > 0 {
      var init := options[..|options| - 1];
      DeleteOptionSpec(init, index);
      if index == |options| - 1 {
        assert options[..index] == init;
        assert options[index + 1..] == [];
      } else if 0 <= index < |options| - 1 {
        assert init[..index] == options[..index];
        assert init[index + 1..] + [options[|options| - 1]] == options[index + 1..];
      } else {
        assert init + [options[|options| - 1]] == options;
      }
    }
  }

  // ----- the nested-field list -----

  /** `handleAddNestedField`: a blank, optional text field whose order is its index. */
  function AddNestedField(localFields: seq<Field>): (r: seq<Field>)
    ensures |r| == |localFields| + 1 && r[..|localFields|] == localFields
    ensures r[|localFields|].order == |localFields|
  {
    localFields + [Field(None, "", Text, "", false, None, None, |localFields|)]
  }

  /** Starting from an empty list, adding keeps every nested field's order equal to its index. */
  lemma AddNestedKeepsIndexOrder(localFields: seq<Field>)
    requires forall i :: 0 <= i < |localFields| ==> localFields[i].order == i
    ensures var r := AddNestedField(localFields);
            forall i :: 0 <= i < |r| ==> r[i].order == i
  {
    var r := AddNestedField(localFields);
    forall i | 0 <= i < |r| ensures r[i].order == i {
      if i < |localFields| {
        assert r[i] == r[..|localFields|][i];
      }
    }
  }

  // ----- formatAnswer -----

  /**
   * How the submissions table shows an answer: '-' for null or undefined, an
   * array's elements joined by ", ", an object as JSON, `String(v)` otherwise.
   */
  function FormatAnswer(rt: Runtime, v: Option<Value>): (r: string)
    ensures v.None? || v.value == Null ==> r == "-"
    ensures v.Some? && v.value.Arr? ==> r == Join(ElementTexts(rt, v.value.items), ", ")
    ensures v.Some? && v.value.Obj? ==> r == rt.stringify(v.value)
    ensures v.Some? && !v.value.Null? && !v.value.Arr? && !v.value.Obj? ==> r == ToStr(rt, v.value)
  {
    match v
    case None => "-"
    case Some(x) =>
      match x
      case Null => "-"
      case Arr(items) => Join(ElementTexts(rt, items), ", ")
      case Obj(_) => rt.stringify(x)
      case _ => ToStr(rt, x)
  }

  /** Unlike the CSV cell, an empty string is shown as it is, and a string answer as itself. */
  lemma FormatStrings(rt: Runtime, s: string)
    ensures FormatAnswer(rt, Some(Str(s))) == s
    ensures FormatAnswer(rt, Some(Str(""))) != FormatAnswer(rt, None)
  {
  }

  /** A list of strings is shown with ", " between them; commas inside entries are not escaped. */
  lemma FormatTwoChoices(rt: Runtime, a: string, b: string)
    ensures FormatAnswer(rt, Some(Arr([Str(a), Str(b)]))) == a + ", " + b
  {
    assert [Str(a), Str(b)][1..] == [Str(b)];
    assert ElementTexts(rt, [Str(b)]) == [b] by {
      assert [Str(b)][1..] == [];
    }
    assert ElementTexts(rt, [Str(a), Str(b)]) == [a, b];
    assert [a, b][1..] == [b];
    assert Join([a, b], ", ") == a + ", " + Join([b], ", ");
  }
}
