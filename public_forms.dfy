/**
 * The public form routes (server/routes/forms.js): the list of active forms,
 * and one form by id with its fields sorted by `order`. A missing form and an
 * inactive one give the same 404, so a caller cannot tell them apart.
 */
module PublicForms {
  import opened Wrappers
  import opened FormModel
  import FieldOrder

  /** The projection `select('title description createdAt')` keeps, with the id. */
  datatype Summary = Summary(id: string, title: string, description: string, createdAt: int)

  /**
   * `Form.find({ isActive: true }).select(...)` over the stored forms, in the
   * order the store yields them.
   */
  function ListActive(stored: seq<(string, Form)>): (r: seq<Summary>)
    ensures |r| <= |stored|
    ensures forall s :: s in r <==>
              exists i :: 0 <= i < |stored| && stored[i].1.isActive
                && s == Summary(stored[i].0, stored[i].1.title, stored[i].1.description, stored[i].1.createdAt)
  {
    if |stored| == 0 then []
    else
      var rest := ListActive(stored[1..]);
      assert forall i :: 1 <= i < |stored| ==> stored[i] == stored[1..][i - 1];
      var (id, f) := stored[0];
      (if f.isActive then [Summary(id, f.title, f.description, f.createdAt)] else []) + rest
  }

  /** One stored form gives one summary when it is active and none otherwise. */
  lemma ListActiveOne(id: string, f: Form)
    ensures ListActive([(id, f)]) == if f.isActive then [Summary(id, f.title, f.description, f.createdAt)] else []
  {
    assert [(id, f)][1..] == [];
  }

  lemma ListActiveCons(p: (string, Form), rest: seq<(string, Form)>)
    ensures ListActive([p] + rest) == ListActive([p]) + ListActive(rest)
  {
    assert ([p] + rest)[0] == p && ([p] + rest)[1..] == rest;
    assert [p][1..] == [];
  }

  /**
   * The listing works piece by piece: with `ListActiveOne`, it is one summary per
   * active form, in the order the store yields the forms.
   */
  lemma {:induction false} ListActiveSplit(a: seq<(string, Form)>, b: seq<(string, Form)>)
    ensures ListActive(a + b) == ListActive(a) + ListActive(b)
  {
    if |a| > 0 {
      assert a == [a[0]] + a[1..] && a + b == [a[0]] + (a[1..] + b);
      ListActiveCons(a[0], a[1..]);
      ListActiveCons(a[0], a[1..] + b);
      ListActiveSplit(a[1..], b);
    } else {
      assert a + b == b;
    }
  }

  datatype Reply =
    | NotFound(status: int, error: string)
    | Found(form: Form)

  function OrderOf(f: Field): int { f.order }

  /** GET /forms/:id on what `findById` returned. */
  function GetForm(stored: Option<Form>): (r: Reply)
    ensures r.NotFound? <==> stored.None? || !stored.value.isActive
    ensures r.NotFound? ==> r == NotFound(404, "Form not found")
  {
    if stored.None? then NotFound(404, "Form not found")
    else if !stored.value.isActive then NotFound(404, "Form not found")
    else Found(stored.value.(fields := FieldOrder.SortBy(stored.value.fields, OrderOf)))
  }

  /** A missing form and an inactive form give the identical reply. */
  lemma NotFoundIsUniform(f: Form)
    requires !f.isActive
    ensures GetForm(Some(f)) == GetForm(None)
  {
  }

  /**
   * An active form is returned with every other attribute as stored, and its
   * fields are a permutation of the stored fields in ascending `order`, with
   * fields of equal `order` kept in stored order.
   */
  lemma ServedFields(f: Form, k: int)
    requires f.isActive
    ensures GetForm(Some(f)).Found?
    ensures GetForm(Some(f)).form.(fields := f.fields) == f
    ensures var served := GetForm(Some(f)).form.fields;
            && multiset(served) == multiset(f.fields)
            && (forall i, j :: 0 <= i < j < |served| ==> served[i].order <= served[j].order)
            && FieldOrder.WithKey(served, OrderOf, k) == FieldOrder.WithKey(f.fields, OrderOf, k)
  {
    FieldOrder.SortIsStable(f.fields, OrderOf, k);
  }

  /** A form whose fields are already in order is served with its fields as stored. */
  lemma SortedFormServedAsStored(f: Form)
    requires f.isActive
    requires forall i, j :: 0 <= i < j < |f.fields| ==> f.fields[i].order <= f.fields[j].order
    ensures GetForm(Some(f)) == Found(f)
  {
    FieldOrder.SortOfSorted(f.fields, OrderOf);
  }
}
