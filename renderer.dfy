/**
 * The public form page's state updates (client/src/components/FormRenderer.tsx).
 * The page keeps top-level answers, nested answers under `<parent>_<nested>`,
 * and the error map the server last returned. Each handler builds fresh maps;
 * the submitted answers are both answer maps merged, nested ones winning.
 */
module Renderer {
  import opened Wrappers
  import opened Js
  import opened ClientTypes
  import FieldOrder
  import opened AnswerKeys

  type Errors = map<string, seq<string>>

  datatype Page = Page(answers: Answers, nestedAnswers: Answers, errors: Errors)

  /** `handleChange(name, value)`: sets the answer and drops that field's error entry, and only that one. */
  function HandleChange(p: Page, name: string, value: Value): (r: Page)
    ensures name in r.answers && r.answers[name] == value
    ensures forall k :: k != name ==> (k in r.answers <==> k in p.answers)
    ensures forall k :: k != name && k in p.answers ==> r.answers[k] == p.answers[k]
    ensures r.errors.Keys == p.errors.Keys - {name}
    ensures forall k :: k in r.errors ==> r.errors[k] == p.errors[k]
    ensures r.nestedAnswers == p.nestedAnswers
  {
    var errors := if name in p.errors then p.errors - {name} else p.errors;
    Page(p.answers[name := value], p.nestedAnswers, errors)
  }

  /** `handleNestedChange(parent, nested, value)`: the same, on the nested answers under the compound key. */
  function HandleNestedChange(p: Page, parent: string, nested: string, value: Value): (r: Page)
    ensures var key := NestedKey(parent, nested);
            && key in r.nestedAnswers && r.nestedAnswers[key] == value
            && (forall k :: k != key ==> (k in r.nestedAnswers <==> k in p.nestedAnswers))
            && (forall k :: k != key && k in p.nestedAnswers ==> r.nestedAnswers[k] == p.nestedAnswers[k])
            && r.errors.Keys == p.errors.Keys - {key}
    ensures forall k :: k in r.errors ==> r.errors[k] == p.errors[k]
    ensures r.answers == p.answers
  {
    var key := NestedKey(parent, nested);
    var errors := if key in p.errors then p.errors - {key} else p.errors;
    Page(p.answers, p.nestedAnswers[key := value], errors)
  }

  /** `{ ...answers, ...nestedAnswers }`: what `handleSubmit` sends. */
  function Merged(p: Page): (r: Answers)
    ensures r.Keys == p.answers.Keys + p.nestedAnswers.Keys
    ensures forall k :: k in p.nestedAnswers ==> r[k] == p.nestedAnswers[k]
    ensures forall k :: k in p.answers && k !in p.nestedAnswers ==> r[k] == p.answers[k]
  {
    p.answers + p.nestedAnswers
  }

  /** A nested answer set after a top-level answer under the same key still wins when submitted. */
  lemma NestedWinsOnCollision(p: Page, parent: string, nested: string, v: Value, w: Value)
    ensures var key := NestedKey(parent, nested);
            Merged(HandleNestedChange(HandleChange(p, key, v), parent, nested, w))[key] == w
  {
  }

  predicate HasPrefix(k: string, prefix: string) {
    |prefix| <= |k| && k[..|prefix|] == prefix
  }

  /** The `nestedErrors` a field receives: the error entries whose key starts with `<name>_`. */
  function NestedErrors(errors: Errors, name: string): (r: Errors)
    ensures forall k :: k in r <==> k in errors && |k| > |name| && k[..|name| + 1] == name + "_"
    ensures forall k :: k in r ==> r[k] == errors[k]
  {
    map k | k in errors && HasPrefix(k, name + "_") :: errors[k]
  }

  /** The errors of a field's own nested fields always reach it. */
  lemma NestedErrorReachesParent(errors: Errors, parent: string, nested: string)
    requires NestedKey(parent, nested) in errors
    ensures NestedKey(parent, nested) in NestedErrors(errors, parent)
  {
  }

  /**
   * The filter is by prefix only: the errors of a top-level field named
   * `a_b` are also handed to the field named `a`.
   */
  lemma PrefixAlsoMatchesSiblings(errors: Errors)
    requires "a_b" in errors
    ensures "a_b" in NestedErrors(errors, "a")
  {
    assert "a_b"[..2] == "a_";
  }

  /**
   * `field.options.find(opt => opt.value === value)` over the client's options; the
   * validator's `Validation.FindOption` is the same search over the stored option type.
   */
  function FindOption(os: seq<FieldOption>, v: Value): (r: Option<FieldOption>)
    ensures r.None? <==> forall i :: 0 <= i < |os| ==> v != Str(os[i].value)
    ensures r.Some? ==> exists i :: 0 <= i < |os| && os[i] == r.value && v == Str(os[i].value)
                                    && forall j :: 0 <= j < i ==> v != Str(os[j].value)
  {
    if |os| == 0 then None
    else if v == Str(os[0].value) then Some(os[0])
    else
      var r := FindOption(os[1..], v);
      assert forall j :: 1 <= j < |os| ==> os[j] == os[1..][j - 1];
      r
  }

  /**
   * `selectedOption`: only a radio or select field with a truthy value and an
   * option list has one, and it is the first option whose value strictly equals
   * the answer.
   */
  function SelectedOption(f: Field, value: Option<Value>): (r: Option<FieldOption>)
    ensures r.Some? ==> (f.fieldType == Radio || f.fieldType == Select) && value.Some? && Truthy(value.value)
                        && f.options.Some?
    ensures r.Some? ==> exists i :: 0 <= i < |f.options.value| && f.options.value[i] == r.value
                          && value.value == Str(r.value.value)
                          && forall j :: 0 <= j < i ==> value.value != Str(f.options.value[j].value)
    ensures (r.None? && (f.fieldType == Radio || f.fieldType == Select) && value.Some? && Truthy(value.value)
             && f.options.Some?) ==>
              forall i :: 0 <= i < |f.options.value| ==> value.value != Str(f.options.value[i].value)
  {
    if (f.fieldType == Radio || f.fieldType == Select) && value.Some? && Truthy(value.value) && f.options.Some?
    then FindOption(f.options.value, value.value)
    else None
  }

  /** A number or a list never selects an option, even when it reads like one. */
  lemma OnlyStringsSelect(f: Field, value: Value)
    requires !value.Str?
    ensures SelectedOption(f, Some(value)).None?
  {
  }

  /** The multi-checkbox handler: ticking appends the option's value, unticking removes every copy of it. */
  function Toggle(value: Option<Value>, optionValue: string, checked: bool): (r: Value)
    ensures r.Arr?
    ensures var selected := if value.Some? && value.value.Arr? then value.value.items else [];
            && (checked ==> r.items == selected + [Str(optionValue)])
            && (!checked ==> forall x :: x in r.items <==> x in selected && x != Str(optionValue))
            && (!checked ==> forall x :: x != Str(optionValue) ==> multiset(r.items)[x] == multiset(selected)[x])
  {
    var selected := if value.Some? && value.value.Arr? then value.value.items else [];
    WithoutCounts(selected, Str(optionValue));
    if checked then Arr(selected + [Str(optionValue)]) else Arr(Without(selected, Str(optionValue)))
  }

  /**
   * `values.filter(v => v !== x)`. `WithoutCounts` says every copy of `x` goes and
   * every other value stays as often as it was there; `WithoutSplit` says the
   * survivors keep their order.
   */
  function Without(values: seq<Value>, x: Value): (r: seq<Value>)
    ensures forall y :: y in r <==> y in values && y != x
  {
    if |values| == 0 then []
    else (if values[0] == x then [] else [values[0]]) + Without(values[1..], x)
  }

  /** The filter removes every copy of the value and keeps every other value as often as it occurs. */
  lemma {:induction false} WithoutCounts(values: seq<Value>, x: Value)
    ensures multiset(Without(values, x))[x] == 0
    ensures forall y :: y != x ==> multiset(Without(values, x))[y] == multiset(values)[y]
  {
    if |values| > 0 {
      WithoutCounts(values[1..], x);
      assert values == [values[0]] + values[1..];
    }
  }

  /** Filtering works piece by piece, so what survives keeps its relative order. */
  lemma {:induction false} WithoutSplit(a: seq<Value>, b: seq<Value>, x: Value)
    ensures Without(a + b, x) == Without(a, x) + Without(b, x)
  {
    if |a| > 0 {
      assert a == [a[0]] + a[1..] && a + b == [a[0]] + (a[1..] + b);
      WithoutCons(a[0], a[1..], x);
      WithoutCons(a[0], a[1..] + b, x);
      WithoutSplit(a[1..], b, x);
    } else {
      assert a + b == b;
    }
  }

  /** One step of the filter: the head is kept unless it is the removed value. */
  lemma WithoutCons(h: Value, t: seq<Value>, x: Value)
    ensures Without([h] + t, x) == (if h == x then [] else [h]) + Without(t, x)
  {
    assert ([h] + t)[0] == h && ([h] + t)[1..] == t;
  }

  lemma {:induction false} WithoutAbsent(values: seq<Value>, x: Value)
    requires x !in values
    ensures Without(values, x) == values
  {
    if |values| > 0 {
      WithoutAbsent(values[1..], x);
      assert [values[0]] + values[1..] == values;
    }
  }

  lemma {:induction false} WithoutAppended(values: seq<Value>, x: Value)
    ensures Without(values + [x], x) == Without(values, x)
  {
    if |values| == 0 {
      assert Without([x], x) == [] + Without([x][1..], x);
    } else {
      assert (values + [x])[1..] == values[1..] + [x];
      WithoutAppended(values[1..], x);
    }
  }

  /** Unticking an option just ticked restores the selection, when it did not hold that value before. */
  lemma UntickUndoesTick(selected: seq<Value>, optionValue: string)
    requires Str(optionValue) !in selected
    ensures Toggle(Some(Toggle(Some(Arr(selected)), optionValue, true)), optionValue, false) == Arr(selected)
  {
    WithoutAppended(selected, Str(optionValue));
    WithoutAbsent(selected, Str(optionValue));
  }

  function OrderOf(f: Field): int { f.order }

  /** `[...form.fields].sort((a, b) => a.order - b.order)`: the order fields are shown in. */
  function ShownFields(form: Form): seq<Field> {
    FieldOrder.SortBy(form.fields, OrderOf)
  }

  /** Fields are shown in ascending `order`, each stored field once, ties in stored order. */
  lemma ShownInOrder(form: Form, k: int)
    ensures var shown := ShownFields(form);
            && multiset(shown) == multiset(form.fields)
            && (forall i, j :: 0 <= i < j < |shown| ==> shown[i].order <= shown[j].order)
            && FieldOrder.WithKey(shown, OrderOf, k) == FieldOrder.WithKey(form.fields, OrderOf, k)
  {
    FieldOrder.SortIsStable(form.fields, OrderOf, k);
  }
}
