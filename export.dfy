/**
 * The CSV export of GET /forms/:id/submissions/export (server/routes/admin.js).
 *
 * The header row holds "Submitted At", then, for each stored field in stored
 * order, the field's label followed by "<label> - <nested label>" for every
 * nested field of every option. Each submission becomes a row with its
 * submission time followed by one cell per column, read from the answer map
 * under the field's name or under `<field>_<nested>`. Row cells are quoted
 * with inner quotes doubled; header cells are quoted as they are.
 */
module Export {
  import opened Wrappers
  import opened Js
  import opened FormModel
  import opened SubmissionModel
  import AnswerKeys

  /** One entry of `fieldHeaders`: a top-level field, or one of its nested fields. */
  datatype Column = Column(field: Field, nested: Option<NestedField>)

  /** The columns of the nested fields `ns` of one option of `f`. */
  function NestedColumns(f: Field, ns: seq<NestedField>): (r: seq<Column>)
    ensures |r| == |ns|
    ensures forall k :: 0 <= k < |ns| ==> r[k] == Column(f, Some(ns[k]))
  {
    seq(|ns|, k requires 0 <= k < |ns| => Column(f, Some(ns[k])))
  }

  /** The nested columns of the options `os` of `f`, option by option. */
  function OptionColumns(f: Field, os: seq<FieldOption>): seq<Column> {
    if |os| == 0 then []
    else OptionColumns(f, os[..|os| - 1]) + NestedColumns(f, os[|os| - 1].nestedFields)
  }

  function FieldColumns(f: Field): seq<Column> {
    [Column(f, None)] + OptionColumns(f, f.options)
  }

  /** `fieldHeaders` after the outer `forEach` over the stored fields. */
  function Columns(fields: seq<Field>): seq<Column> {
    if |fields| == 0 then []
    else Columns(fields[..|fields| - 1]) + FieldColumns(fields[|fields| - 1])
  }

  function ColumnLabel(c: Column): string {
    if c.nested.Some? then c.field.labelText + " - " + c.nested.value.labelText else c.field.labelText
  }

  /** The answer key a column reads. */
  function ColumnKey(c: Column): string {
    if c.nested.Some? then AnswerKeys.NestedKey(c.field.name, c.nested.value.name) else c.field.name
  }

  function Labels(cols: seq<Column>): (r: seq<string>)
    ensures |r| == |cols|
    ensures forall k :: 0 <= k < |cols| ==> r[k] == ColumnLabel(cols[k])
  {
    seq(|cols|, k requires 0 <= k < |cols| => ColumnLabel(cols[k]))
  }

  /** The header cells, before quoting. */
  function HeaderCells(fields: seq<Field>): seq<string> {
    ["Submitted At"] + Labels(Columns(fields))
  }

  /** A blank answer (undefined, null or '') is an empty cell; anything else is `String(value)`. */
  function Cell(rt: Runtime, v: Option<Value>): (r: string)
    ensures Blank(v) ==> r == ""
    ensures !Blank(v) ==> r == ToStr(rt, v.value)
  {
    if Blank(v) then "" else ToStr(rt, v.value)
  }

  function AnswerCells(rt: Runtime, answers: Answers, cols: seq<Column>): (r: seq<string>)
    ensures |r| == |cols|
    ensures forall k :: 0 <= k < |cols| ==> r[k] == Cell(rt, Lookup(answers, ColumnKey(cols[k])))
  {
    seq(|cols|, k requires 0 <= k < |cols| => Cell(rt, Lookup(answers, ColumnKey(cols[k]))))
  }

  /** The cells of one submission's row, before quoting. */
  function RowCells(rt: Runtime, sub: Submission, cols: seq<Column>): seq<string> {
    [rt.isoTime(sub.submittedAt)] + AnswerCells(rt, sub.answers, cols)
  }

  // ----- quoting -----

  /** `.replace(/"/g, '""')`. */
  function EscapeQuotes(s: string): (r: string)
    ensures |r| >= |s|
  {
    if s == [] then [] else (if s[0] == '"' then "\"\"" else [s[0]]) + EscapeQuotes(s[1..])
  }

  /** A row cell: quoted, with inner quotes doubled. */
  function QuoteCell(s: string): string {
    "\"" + EscapeQuotes(s) + "\""
  }

  function QuotedCells(cells: seq<string>): (r: seq<string>)
    ensures |r| == |cells|
    ensures forall k :: 0 <= k < |cells| ==> r[k] == QuoteCell(cells[k])
  {
    seq(|cells|, k requires 0 <= k < |cells| => QuoteCell(cells[k]))
  }

  /** A data line: the quoted cells joined with ','. */
  function RowLine(cells: seq<string>): string {
    Join(QuotedCells(cells), ",")
  }

  /** A header cell as written: wrapped in quotes, inner quotes left alone. */
  function HeaderCell(s: string): string {
    "\"" + s + "\""
  }

  function HeaderCellsQuoted(cells: seq<string>): (r: seq<string>)
    ensures |r| == |cells|
    ensures forall k :: 0 <= k < |cells| ==> r[k] == HeaderCell(cells[k])
  {
    seq(|cells|, k requires 0 <= k < |cells| => HeaderCell(cells[k]))
  }

  /** The header line as written. */
  function HeaderLine(cells: seq<string>): string {
    Join(HeaderCellsQuoted(cells), ",")
  }

  /** The header line with its cells escaped like the data cells. */
  function EscapedHeaderLine(cells: seq<string>): string {
    RowLine(cells)
  }

  function RowLines(rt: Runtime, subs: seq<Submission>, cols: seq<Column>): (r: seq<string>)
    ensures |r| == |subs|
    ensures forall k :: 0 <= k < |subs| ==> r[k] == RowLine(RowCells(rt, subs[k], cols))
  {
    seq(|subs|, k requires 0 <= k < |subs| => RowLine(RowCells(rt, subs[k], cols)))
  }

  /** The body of the export: the header line, then one line per submission, joined with '\n'. */
  function Csv(rt: Runtime, fields: seq<Field>, subs: seq<Submission>): string {
    Join([HeaderLine(HeaderCells(fields))] + RowLines(rt, subs, Columns(fields)), "\n")
  }

  // ----- reading a quoted line back -----

  /**
   * Reads a quoted cell after its opening quote: a doubled quote stands for one
   * quote, a single quote closes the cell. Gives the text and what follows.
   */
  function ReadQuoted(s: string): (r: Option<(string, string)>)
    ensures r.Some? ==> |r.value.1| < |s|
    decreases |s|
  {
    if |s| == 0 then None
    else if s[0] == '"' then
      if |s| >= 2 && s[1] == '"' then
        match ReadQuoted(s[2..])
        case None => None
        case Some(p) => Some(("\"" + p.0, p.1))
      else Some(("", s[1..]))
    else
      match ReadQuoted(s[1..])
      case None => None
      case Some(p) => Some(([s[0]] + p.0, p.1))
  }

  /** Reads a line of quoted cells separated by ','. */
  function ParseCells(s: string): Option<seq<string>>
    decreases |s|
  {
    if |s| == 0 || s[0] != '"' then None
    else
      match ReadQuoted(s[1..])
      case None => None
      case Some(p) =>
        if p.1 == [] then Some([p.0])
        else if p.1[0] == ',' then
          match ParseCells(p.1[1..])
          case None => None
          case Some(cs) => Some([p.0] + cs)
        else None
  }

  lemma {:induction false} ReadEscaped(t: string, rest: string)
    requires rest == [] || rest[0] != '"'
    ensures ReadQuoted(EscapeQuotes(t) + "\"" + rest) == Some((t, rest))
  {
    var s := EscapeQuotes(t) + "\"" + rest;
    if t == [] {
      assert s == "\"" + rest;
      assert s[1..] == rest;
    } else if t[0] == '"' {
      assert s == "\"\"" + (EscapeQuotes(t[1..]) + "\"" + rest);
      assert s[2..] == EscapeQuotes(t[1..]) + "\"" + rest;
      ReadEscaped(t[1..], rest);
      assert "\"" + t[1..] == t;
    } else {
      assert s == [t[0]] + (EscapeQuotes(t[1..]) + "\"" + rest);
      assert s[1..] == EscapeQuotes(t[1..]) + "\"" + rest;
      ReadEscaped(t[1..], rest);
      assert [t[0]] + t[1..] == t;
    }
  }

  /** Every data line reads back as exactly its cells, whatever quotes and commas they hold. */
  lemma {:induction false} RowLineRoundTrip(cells: seq<string>)
    requires |cells| >= 1
    ensures ParseCells(RowLine(cells)) == Some(cells)
  {
    var q := QuotedCells(cells);
    if |cells| == 1 {
      var s := q[0];
      assert s[1..] == EscapeQuotes(cells[0]) + "\"" + [];
      ReadEscaped(cells[0], []);
      assert [cells[0]] == cells;
    } else {
      var tail := Join(q[1..], ",");
      assert q[1..] == QuotedCells(cells[1..]);
      var s := q[0] + "," + tail;
      assert RowLine(cells) == s;
      assert s[1..] == EscapeQuotes(cells[0]) + "\"" + ("," + tail);
      ReadEscaped(cells[0], "," + tail);
      assert ("," + tail)[1..] == tail;
      RowLineRoundTrip(cells[1..]);
      assert [cells[0]] + cells[1..] == cells;
    }
  }

  /** A header label holding a quote does not read back: the quote closes the cell early. */
  lemma HeaderLineWithQuote()
    ensures ParseCells(HeaderLine(["a\"b"])) != Some(["a\"b"])
  {
    var s := HeaderLine(["a\"b"]);
    assert s == "\"a\"b\"";
    assert s[1..] == "a\"b\"";
    assert "a\"b\""[1..] == "\"b\"";
    assert "\"b\""[1..] == "b\"";
    assert ReadQuoted("\"b\"") == Some(("", "b\""));
    assert ['a'] + "" == "a";
    assert ReadQuoted("a\"b\"") == Some(("a", "b\""));
  }

  /** With the header cells escaped like the data cells, the header line reads back too. */
  lemma EscapedHeaderRoundTrip(fields: seq<Field>)
    ensures ParseCells(EscapedHeaderLine(HeaderCells(fields))) == Some(HeaderCells(fields))
  {
    RowLineRoundTrip(HeaderCells(fields));
  }

  /** A label without quotes is written the same way by both header forms. */
  lemma {:induction false} EscapeWithoutQuotes(s: string)
    requires forall k :: 0 <= k < |s| ==> s[k] != '"'
    ensures EscapeQuotes(s) == s
    ensures QuoteCell(s) == HeaderCell(s)
  {
    if s != [] {
      EscapeWithoutQuotes(s[1..]);
      assert [s[0]] + s[1..] == s;
    }
  }

  // ----- the shape of the table -----

  function NestedInOptions(os: seq<FieldOption>): nat {
    if |os| == 0 then 0 else NestedInOptions(os[..|os| - 1]) + |os[|os| - 1].nestedFields|
  }

  /** The number of nested fields over all options of all fields. */
  function NestedCount(fields: seq<Field>): nat {
    if |fields| == 0 then 0 else NestedCount(fields[..|fields| - 1]) + NestedInOptions(fields[|fields| - 1].options)
  }

  lemma {:induction false} OptionColumnsCount(f: Field, os: seq<FieldOption>)
    ensures |OptionColumns(f, os)| == NestedInOptions(os)
  {
    if |os| > 0 {
      OptionColumnsCount(f, os[..|os| - 1]);
    }
  }

  lemma {:induction false} ColumnsCount(fields: seq<Field>)
    ensures |Columns(fields)| == |fields| + NestedCount(fields)
  {
    if |fields| > 0 {
      ColumnsCount(fields[..|fields| - 1]);
      OptionColumnsCount(fields[|fields| - 1], fields[|fields| - 1].options);
    }
  }

  /**
   * The header has 1 + |fields| + (nested fields over all options) cells, and
   * every data row has exactly as many.
   */
  lemma TableShape(rt: Runtime, fields: seq<Field>, sub: Submission)
    ensures |HeaderCells(fields)| == 1 + |fields| + NestedCount(fields)
    ensures |RowCells(rt, sub, Columns(fields))| == |HeaderCells(fields)|
  {
    ColumnsCount(fields);
  }

  /** The top-level columns, in the order they appear. */
  function TopFields(cols: seq<Column>): seq<Field> {
    if |cols| == 0 then []
    else TopFields(cols[..|cols| - 1]) + (if cols[|cols| - 1].nested.None? then [cols[|cols| - 1].field] else [])
  }

  lemma {:induction false} TopFieldsConcat(a: seq<Column>, b: seq<Column>)
    ensures TopFields(a + b) == TopFields(a) + TopFields(b)
  {
    if |b| == 0 {
      assert a + b == a;
    } else {
      assert (a + b)[..|a + b| - 1] == a + b[..|b| - 1];
      TopFieldsConcat(a, b[..|b| - 1]);
    }
  }

  lemma {:induction false} NoTopInOptions(f: Field, os: seq<FieldOption>)
    ensures TopFields(OptionColumns(f, os)) == []
  {
    if |os| > 0 {
      NoTopInOptions(f, os[..|os| - 1]);
      var ns := os[|os| - 1].nestedFields;
      NoTopInNested(f, ns, |ns|);
      assert NestedColumns(f, ns)[..|ns|] == NestedColumns(f, ns);
      TopFieldsConcat(OptionColumns(f, os[..|os| - 1]), NestedColumns(f, ns));
    }
  }

  lemma {:induction false} NoTopInNested(f: Field, ns: seq<NestedField>, n: nat)
    requires n <= |ns|
    ensures TopFields(NestedColumns(f, ns)[..n]) == []
  {
    if n > 0 {
      NoTopInNested(f, ns, n - 1);
      assert NestedColumns(f, ns)[..n][..n - 1] == NestedColumns(f, ns)[..n - 1];
    }
  }

  lemma OwnColumnFirst(f: Field)
    ensures TopFields(FieldColumns(f)) == [f]
  {
    TopFieldsConcat([Column(f, None)], OptionColumns(f, f.options));
    NoTopInOptions(f, f.options);
    assert [Column(f, None)][..0] == [];
    assert TopFields([Column(f, None)]) == [] + [f];
  }

  /** The columns follow the stored field order, not the `order` attribute. */
  lemma {:induction false} ColumnsFollowStoredOrder(fields: seq<Field>)
    ensures TopFields(Columns(fields)) == fields
  {
    if |fields| > 0 {
      var init := fields[..|fields| - 1];
      var f := fields[|fields| - 1];
      ColumnsFollowStoredOrder(init);
      assert Columns(fields) == Columns(init) + FieldColumns(f);
      TopFieldsConcat(Columns(init), FieldColumns(f));
      OwnColumnFirst(f);
      assert init + [f] == fields;
    }
  }

  // ----- the builder as the route runs it -----

  lemma LabelsAppend(cols: seq<Column>, c: Column)
    ensures Labels(cols + [c]) == Labels(cols) + [ColumnLabel(c)]
  {
  }

  lemma ColumnsStep(fields: seq<Field>, i: nat)
    requires i < |fields|
    ensures Columns(fields[..i + 1]) == Columns(fields[..i]) + FieldColumns(fields[i])
  {
    assert fields[..i + 1][..i] == fields[..i];
  }

  lemma OptionColumnsStep(f: Field, os: seq<FieldOption>, j: nat)
    requires j < |os|
    ensures OptionColumns(f, os[..j + 1]) == OptionColumns(f, os[..j]) + NestedColumns(f, os[j].nestedFields)
  {
    assert os[..j + 1][..j] == os[..j];
  }

  /** The innermost `forEach`: one column per nested field of one option. */
  method PushNestedHeaders(field: Field, nestedFields: seq<NestedField>, headers0: seq<string>, fieldHeaders0: seq<Column>)
    returns (headers: seq<string>, fieldHeaders: seq<Column>)
    requires headers0 == ["Submitted At"] + Labels(fieldHeaders0)
    ensures fieldHeaders == fieldHeaders0 + NestedColumns(field, nestedFields)
    ensures headers == ["Submitted At"] + Labels(fieldHeaders)
  {
    headers, fieldHeaders := headers0, fieldHeaders0;
    for k := 0 to |nestedFields|
      invariant fieldHeaders == fieldHeaders0 + NestedColumns(field, nestedFields)[..k]
      invariant headers == ["Submitted At"] + Labels(fieldHeaders)
    {
      var nestedField := nestedFields[k];
      var c := Column(field, Some(nestedField));
      LabelsAppend(fieldHeaders, c);
      headers := headers + [field.labelText + " - " + nestedField.labelText];
      fieldHeaders := fieldHeaders + [c];
      assert NestedColumns(field, nestedFields)[..k + 1] == NestedColumns(field, nestedFields)[..k] + [c];
    }
    assert NestedColumns(field, nestedFields)[..|nestedFields|] == NestedColumns(field, nestedFields);
  }

  /** One iteration of the outer `forEach`: the field's own column, then its options' nested columns. */
  method PushFieldHeaders(field: Field, headers0: seq<string>, fieldHeaders0: seq<Column>)
    returns (headers: seq<string>, fieldHeaders: seq<Column>)
    requires headers0 == ["Submitted At"] + Labels(fieldHeaders0)
    ensures fieldHeaders == fieldHeaders0 + FieldColumns(field)
    ensures headers == ["Submitted At"] + Labels(fieldHeaders)
  {
    LabelsAppend(fieldHeaders0, Column(field, None));
    headers := headers0 + [field.labelText];
    fieldHeaders := fieldHeaders0 + [Column(field, None)];
    for j := 0 to |field.options|
      invariant fieldHeaders == fieldHeaders0 + [Column(field, None)] + OptionColumns(field, field.options[..j])
      invariant headers == ["Submitted At"] + Labels(fieldHeaders)
    {
      OptionColumnsStep(field, field.options, j);
      headers, fieldHeaders := PushNestedHeaders(field, field.options[j].nestedFields, headers, fieldHeaders);
    }
    assert field.options[..|field.options|] == field.options;
  }

  /**
   * The `forEach` loops that fill `headers` and `fieldHeaders`: each field
   * pushes its own column, then one column per nested field of each option.
   */
  method BuildHeaders(fields: seq<Field>) returns (headers: seq<string>, fieldHeaders: seq<Column>)
    ensures fieldHeaders == Columns(fields)
    ensures headers == HeaderCells(fields)
  {
    headers := ["Submitted At"];
    fieldHeaders := [];
    for i := 0 to |fields|
      invariant fieldHeaders == Columns(fields[..i])
      invariant headers == ["Submitted At"] + Labels(fieldHeaders)
    {
      ColumnsStep(fields, i);
      headers, fieldHeaders := PushFieldHeaders(fields[i], headers, fieldHeaders);
    }
    assert fields[..|fields|] == fields;
  }

  /** One submission's row: its time, then one cell per column. */
  method BuildRow(rt: Runtime, sub: Submission, fieldHeaders: seq<Column>) returns (row: seq<string>)
    ensures row == RowCells(rt, sub, fieldHeaders)
  {
    row := [rt.isoTime(sub.submittedAt)];
    for k := 0 to |fieldHeaders|
      invariant row == [rt.isoTime(sub.submittedAt)] + AnswerCells(rt, sub.answers, fieldHeaders[..k])
    {
      var c := fieldHeaders[k];
      var value;
      if c.nested.Some? {
        value := Lookup(sub.answers, AnswerKeys.NestedKey(c.field.name, c.nested.value.name));
      } else {
        value := Lookup(sub.answers, c.field.name);
      }
      row := row + [if !Blank(value) then ToStr(rt, value.value) else ""];
      assert AnswerCells(rt, sub.answers, fieldHeaders[..k + 1])
          == AnswerCells(rt, sub.answers, fieldHeaders[..k]) + [Cell(rt, value)];
    }
    assert fieldHeaders[..|fieldHeaders|] == fieldHeaders;
  }

  /** The export body for a form's fields and its submissions in the order given. */
  method BuildCsv(rt: Runtime, fields: seq<Field>, subs: seq<Submission>) returns (csv: string)
    ensures csv == Csv(rt, fields, subs)
  {
    var headers, fieldHeaders := BuildHeaders(fields);
    var rows: seq<string> := [];
    for i := 0 to |subs|
      invariant rows == RowLines(rt, subs[..i], fieldHeaders)
    {
      var row := BuildRow(rt, subs[i], fieldHeaders);
      rows := rows + [RowLine(row)];
    }
    assert subs[..|subs|] == subs;
    csv := Join([HeaderLine(headers)] + rows, "\n");
  }

  /** The route: 404 for an unknown form id; otherwise the CSV of that form's submissions. */
  function ExportReply(rt: Runtime, forms: map<string, Form>, submissions: seq<Submission>, id: string): (r: Option<string>)
    ensures r.None? <==> id !in forms
    ensures id in forms ==> r.value == Csv(rt, forms[id].fields, OfForm(submissions, id))
  {
    if id !in forms then None else Some(Csv(rt, forms[id].fields, OfForm(submissions, id)))
  }

  /** `Submission.find({ formId: id })`, in store order. */
  function OfForm(submissions: seq<Submission>, id: string): (r: seq<Submission>)
    ensures forall s :: s in r <==> s in submissions && s.formId == id
  {
    if |submissions| == 0 then []
    else (if submissions[0].formId == id then [submissions[0]] else []) + OfForm(submissions[1..], id)
  }

  /** The export lists each submission of the form as often as it is stored, and no other. */
  lemma {:induction false} OfFormCounts(submissions: seq<Submission>, id: string)
    ensures forall s :: multiset(OfForm(submissions, id))[s]
                          == if s.formId == id then multiset(submissions)[s] else 0
  {
    if |submissions| > 0 {
      OfFormCounts(submissions[1..], id);
      assert submissions == [submissions[0]] + submissions[1..];
    }
  }

  lemma OfFormStep(a: seq<Submission>, b: seq<Submission>, id: string)
    requires |a| > 0
    ensures OfForm(a + b, id) == (if a[0].formId == id then [a[0]] else []) + OfForm(a[1..] + b, id)
  {
    assert (a + b)[0] == a[0] && (a + b)[1..] == a[1..] + b;
  }

  /** The filter works piece by piece, so the rows follow store order. */
  lemma {:induction false} OfFormSplit(a: seq<Submission>, b: seq<Submission>, id: string)
    ensures OfForm(a + b, id) == OfForm(a, id) + OfForm(b, id)
  {
    if |a| > 0 {
      OfFormStep(a, b, id);
      OfFormSplit(a[1..], b, id);
    } else {
      assert a + b == b;
    }
  }
}
