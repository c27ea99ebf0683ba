/**
 * The flat answer key of a nested field, `${parent}_${nested}`. The public form
 * page writes nested answers under it (client/src/components/FormRenderer.tsx),
 * the validator reads them and stores their errors under it
 * (server/utils/validation.js), and the CSV export reads it back
 * (server/routes/admin.js).
 */
module AnswerKeys {
  /** The compound key of a nested answer. */
  function NestedKey(parent: string, nested: string): (k: string)
    ensures |k| == |parent| + 1 + |nested|
    ensures k[..|parent| + 1] == parent + "_"
  {
    parent + "_" + nested
  }

  /** Under one parent, different nested names give different keys. */
  lemma NestedKeyInjective(parent: string, a: string, b: string)
    requires NestedKey(parent, a) == NestedKey(parent, b)
    ensures a == b
  {
    assert a == NestedKey(parent, a)[|parent| + 1..];
    assert b == NestedKey(parent, b)[|parent| + 1..];
  }

  /** Across parents the key is ambiguous: `a` / `b_c` and `a_b` / `c` share the key `a_b_c`. */
  lemma NestedKeyAmbiguous()
    ensures NestedKey("a", "b_c") == NestedKey("a_b", "c") == "a_b_c"
  {
  }
}
