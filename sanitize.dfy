/**
 * The request sanitiser (server/middleware/sanitize.js). Strings are trimmed,
 * then `<script>` blocks, the text "javascript:" in any letter case, inline
 * event-handler prefixes (`on<word> =`) and every '<' and '>' are removed.
 * Arrays are sanitised element by element; plain objects key by key and value
 * by value into a fresh object; everything else passes through. The source
 * takes an object for plain when `obj.constructor === Object`, which a parsed
 * object with its own "constructor" key fails.
 */
module Sanitizer {
  import opened Wrappers
  import opened Js

  const Scheme: string := "javascript:"
  const ScriptOpen: string := "<script"
  const ScriptClose: string := "</script>"

  /** Whether `t` starts with `word`, letters compared as `/i` compares them. */
  predicate StartsWithCi(t: string, word: string) {
    |word| <= |t| && LowerAll(t[..|word|]) == word
  }

  /** The first `k >= from` at which `</script>` starts, in any letter case. */
  function FindClose(t: string, from: nat): (r: Option<nat>)
    ensures r.Some? ==> from <= r.value && r.value + |ScriptClose| <= |t| && StartsWithCi(t[r.value..], ScriptClose)
    ensures r.Some? ==> forall k :: from <= k < r.value ==> !StartsWithCi(t[k..], ScriptClose)
    ensures r.None? ==> forall k :: from <= k <= |t| ==> !StartsWithCi(t[k..], ScriptClose)
    decreases |t| - from
  {
    if from + |ScriptClose| > |t| then None
    else if StartsWithCi(t[from..], ScriptClose) then Some(from)
    else FindClose(t, from + 1)
  }

  /**
   * The length of the match of `/<script\b[^<]*(?:(?!<\/script>)<[^<]*)*<\/script>/i`
   * at the start of `t`, 0 when there is none. The body can run over anything
   * but `</script>`, so the match ends at the first `</script>` after the tag name.
   */
  function ScriptAt(t: string): (n: nat)
    ensures n <= |t|
    ensures n > 0 ==> n >= |ScriptOpen| + |ScriptClose| && StartsWithCi(t, ScriptOpen) && StartsWithCi(t[n - |ScriptClose|..], ScriptClose)
  {
    if StartsWithCi(t, ScriptOpen) && (|t| == |ScriptOpen| || !IsWordChar(t[|ScriptOpen|])) then
      match FindClose(t, |ScriptOpen|)
      case None => 0
      case Some(k) => k + |ScriptClose|
    else 0
  }

  /** The length of the run of `\w` characters at the start of `t`. */
  function WordRun(t: string): (n: nat)
    ensures n <= |t|
    ensures forall i :: 0 <= i < n ==> IsWordChar(t[i])
    ensures n == |t| || !IsWordChar(t[n])
  {
    if t != [] && IsWordChar(t[0]) then 1 + WordRun(t[1..]) else 0
  }

  /** The length of the run of `\s` characters at the start of `t`. */
  function SpaceRun(t: string): (n: nat)
    ensures n <= |t|
    ensures forall i :: 0 <= i < n ==> IsSpace(t[i])
    ensures n == |t| || !IsSpace(t[n])
  {
    if t != [] && IsSpace(t[0]) then 1 + SpaceRun(t[1..]) else 0
  }

  /**
   * The length of the match of `/on\w+\s*=/i` at the start of `t`, 0 when there
   * is none. Word characters, white space and `=` are disjoint, so the greedy
   * runs never need to give anything back.
   */
  function HandlerAt(t: string): (n: nat)
    ensures n <= |t|
    ensures n > 0 ==> n >= 4 && StartsWithCi(t, "on") && IsWordChar(t[2]) && t[n - 1] == '='
  {
    if StartsWithCi(t, "on") && |t| > 2 && IsWordChar(t[2]) then
      var w := 2 + WordRun(t[2..]);
      var e := w + SpaceRun(t[w..]);
      if e < |t| && t[e] == '=' then e + 1 else 0
    else 0
  }

  /** `.replace(/<script.../gi, '')`: matches taken left to right, without overlap. */
  function RemoveScripts(s: string): (r: string)
    ensures |r| <= |s|
    decreases |s|
  {
    var n := ScriptAt(s);
    if n > 0 then RemoveScripts(s[n..])
    else if s == [] then []
    else [s[0]] + RemoveScripts(s[1..])
  }

  /** `.replace(/javascript:/gi, '')`. */
  function RemoveScheme(s: string): (r: string)
    ensures |r| <= |s|
    decreases |s|
  {
    if StartsWithCi(s, Scheme) then RemoveScheme(s[|Scheme|..])
    else if s == [] then []
    else [s[0]] + RemoveScheme(s[1..])
  }

  /** `.replace(/on\w+\s*=/gi, '')`. */
  function RemoveHandlers(s: string): (r: string)
    ensures |r| <= |s|
    decreases |s|
  {
    var n := HandlerAt(s);
    if n > 0 then RemoveHandlers(s[n..])
    else if s == [] then []
    else [s[0]] + RemoveHandlers(s[1..])
  }

  predicate IsAngle(c: char) { c == '<' || c == '>' }

  /** `.replace(/[<>]/g, '')`. */
  function RemoveAngles(s: string): (r: string)
    ensures |r| <= |s|
    ensures NoAngle(r)
  {
    if s == [] then []
    else (if IsAngle(s[0]) then [] else [s[0]]) + RemoveAngles(s[1..])
  }

  /** One link of the string case's method chain. */
  datatype Step = TrimStep | ScriptStep | SchemeStep | HandlerStep | AngleStep

  function RunStep(step: Step, s: string): (r: string)
    ensures |r| <= |s|
    ensures step == AngleStep ==> NoAngle(r)
  {
    match step
    case TrimStep => Trim(s)
    case ScriptStep => RemoveScripts(s)
    case SchemeStep => RemoveScheme(s)
    case HandlerStep => RemoveHandlers(s)
    case AngleStep => RemoveAngles(s)
  }

  /** A chain of links: the last link applied to what the rest of the chain produced. */
  function RunSteps(steps: seq<Step>, s: string): (r: string)
    ensures |r| <= |s|
    ensures |steps| > 0 && steps[|steps| - 1] == AngleStep ==> NoAngle(r)
  {
    if |steps| == 0 then s else RunStep(steps[|steps| - 1], RunSteps(steps[..|steps| - 1], s))
  }

  /** `.trim()` and then the four `.replace` calls, in the source's order. */
  const Chain: seq<Step> := [TrimStep, ScriptStep, SchemeStep, HandlerStep, AngleStep]

  /** The string case: never longer than the input, and free of '<' and '>'. */
  function SanitizeString(s: string): (r: string)
    ensures |r| <= |s|
    ensures NoAngle(r)
  {
    RunSteps(Chain, s)
  }

  lemma RunStepsSnoc(steps: seq<Step>, step: Step, s: string)
    ensures RunSteps(steps + [step], s) == RunStep(step, RunSteps(steps, s))
  {
    assert (steps + [step])[..|steps|] == steps;
  }

  /** The chain spelled out as the nested calls it stands for. */
  lemma ChainIsNested(s: string)
    ensures SanitizeString(s) == RemoveAngles(RemoveHandlers(RemoveScheme(RemoveScripts(Trim(s)))))
  {
    RunStepsSnoc([], TrimStep, s);
    assert [] + [TrimStep] == [TrimStep];
    RunStepsSnoc([TrimStep], ScriptStep, s);
    assert [TrimStep] + [ScriptStep] == [TrimStep, ScriptStep];
    RunStepsSnoc([TrimStep, ScriptStep], SchemeStep, s);
    assert [TrimStep, ScriptStep] + [SchemeStep] == [TrimStep, ScriptStep, SchemeStep];
    RunStepsSnoc([TrimStep, ScriptStep, SchemeStep], HandlerStep, s);
    assert [TrimStep, ScriptStep, SchemeStep] + [HandlerStep] == [TrimStep, ScriptStep, SchemeStep, HandlerStep];
    RunStepsSnoc([TrimStep, ScriptStep, SchemeStep, HandlerStep], AngleStep, s);
    assert [TrimStep, ScriptStep, SchemeStep, HandlerStep] + [AngleStep] == Chain;
  }

  predicate NoAngle(s: string) {
    forall i :: 0 <= i < |s| ==> !IsAngle(s[i])
  }

  /** No two entries of an object share a key. */
  predicate DistinctKeys(entries: seq<(string, Value)>) {
    forall i, j :: 0 <= i < j < |entries| ==> entries[i].0 != entries[j].0
  }

  /**
   * `sanitized[key] = v` on the object written so far: an existing key keeps its
   * place and takes the new value, a new key goes last.
   */
  function Put(entries: seq<(string, Value)>, key: string, v: Value): (r: seq<(string, Value)>)
    ensures |r| == |entries| || |r| == |entries| + 1
    ensures forall e :: e in r ==> e in entries || e == (key, v)
    ensures DistinctKeys(entries) ==> DistinctKeys(r)
  {
    if |entries| == 0 then [(key, v)]
    else if entries[0].0 == key then [(key, v)] + entries[1..]
    else
      var rest := Put(entries[1..], key, v);
      assert forall e :: e in entries[1..] ==> e in entries;
      assert forall i :: 0 <= i < |rest| ==> rest[i] in rest;
      [entries[0]] + rest
  }

  /** `obj[key]` on an object, None for a key it does not hold. */
  function Get(entries: seq<(string, Value)>, key: string): Option<Value> {
    if |entries| == 0 then None
    else if entries[0].0 == key then Some(entries[0].1)
    else Get(entries[1..], key)
  }

  lemma {:induction false} GetPut(entries: seq<(string, Value)>, key: string, v: Value, k: string)
    ensures Get(Put(entries, key, v), k) == if k == key then Some(v) else Get(entries, k)
  {
    if |entries| > 0 && entries[0].0 != key {
      GetPut(entries[1..], key, v, k);
    }
  }

  /** The assignments of the `for...in` loop, made in order into a fresh object. */
  function Assign(pairs: seq<(string, Value)>): (r: seq<(string, Value)>)
    ensures |r| <= |pairs|
    ensures forall e :: e in r ==> e in pairs
    ensures DistinctKeys(r)
  {
    if |pairs| == 0 then []
    else
      var init := pairs[..|pairs| - 1];
      var r := Put(Assign(init), pairs[|pairs| - 1].0, pairs[|pairs| - 1].1);
      assert forall e :: e in init ==> e in pairs;
      r
  }

  /**
   * A key is held after the assignments exactly when some assignment wrote it,
   * and it holds the value of the last such assignment.
   */
  lemma {:induction false} GetAssign(pairs: seq<(string, Value)>, key: string)
    ensures Get(Assign(pairs), key).Some? <==> exists j :: 0 <= j < |pairs| && pairs[j].0 == key
    ensures forall j :: 0 <= j < |pairs| && pairs[j].0 == key && (forall l :: j < l < |pairs| ==> pairs[l].0 != key)
              ==> Get(Assign(pairs), key) == Some(pairs[j].1)
  {
    if |pairs| > 0 {
      var n := |pairs| - 1;
      var init := pairs[..n];
      assert Assign(pairs) == Put(Assign(init), pairs[n].0, pairs[n].1);
      GetPut(Assign(init), pairs[n].0, pairs[n].1, key);
      if pairs[n].0 == key {
        assert Get(Assign(pairs), key) == Some(pairs[n].1);
      } else {
        GetAssign(init, key);
        assert forall j :: 0 <= j < n ==> init[j] == pairs[j];
        assert Get(Assign(pairs), key) == Get(Assign(init), key);
      }
    }
  }

  /**
   * How an object is taken for plain. `ConstructorTest` is the source's
   * `obj.constructor === Object`: an own "constructor" key shadows the inherited
   * one, and no JSON value is the `Object` function, so such an object fails it.
   * `PrototypeTest` is `Object.getPrototypeOf(obj) === Object.prototype`, which
   * every parsed JSON object passes.
   */
  datatype PlainTest = ConstructorTest | PrototypeTest

  /** The object has an own "constructor" key. */
  predicate OwnConstructor(entries: seq<(string, Value)>) {
    exists i :: 0 <= i < |entries| && entries[i].0 == "constructor"
  }

  predicate Plain(test: PlainTest, entries: seq<(string, Value)>) {
    test == PrototypeTest || !OwnConstructor(entries)
  }

  /** No object anywhere in the value has an own "constructor" key. */
  predicate Constructorless(v: Value)
    decreases v
  {
    match v
    case Arr(items) => forall i :: 0 <= i < |items| ==> Constructorless(items[i])
    case Obj(entries) => !OwnConstructor(entries) && forall i :: 0 <= i < |entries| ==> Constructorless(entries[i].1)
    case _ => true
  }

  /**
   * `sanitizeInput(obj)` for a value that is present, with the plain-object test
   * as a parameter: an object that fails it is returned as it is.
   */
  function Sanitize(test: PlainTest, v: Value): (r: Value)
    ensures v.Str? ==> r.Str? && |r.s| <= |v.s|
    ensures v.Arr? ==> r.Arr? && |r.items| == |v.items|
    ensures v.Obj? && Plain(test, v.entries) ==> r.Obj? && |r.entries| <= |v.entries| && DistinctKeys(r.entries)
    ensures v.Obj? && !Plain(test, v.entries) ==> r == v
    ensures !v.Str? && !v.Arr? && !v.Obj? ==> r == v
    decreases v, 1
  {
    match v
    case Null => Null
    case Str(s) => Str(SanitizeString(s))
    case Arr(items) => Arr(seq(|items|, i requires 0 <= i < |items| => Sanitize(test, items[i])))
    case Obj(entries) => if Plain(test, entries) then Obj(Assign(SanitizedPairs(test, v))) else v
    case _ => v
  }

  /** The assignments the loop makes for an object: each key and each value sanitised. */
  function SanitizedPairs(test: PlainTest, v: Value): (pairs: seq<(string, Value)>)
    requires v.Obj?
    ensures |pairs| == |v.entries|
    ensures forall i :: 0 <= i < |pairs| ==> pairs[i] == (SanitizeString(v.entries[i].0), Sanitize(test, v.entries[i].1))
    decreases v, 0
  {
    seq(|v.entries|, i requires 0 <= i < |v.entries| => (SanitizeString(v.entries[i].0), Sanitize(test, v.entries[i].1)))
  }

  /**
   * `sanitizeInput`: null and undefined come back unchanged; angle brackets survive
   * only inside objects that hold an own "constructor" key.
   */
  function SanitizeInput(v: Option<Value>): (r: Option<Value>)
    ensures v.None? <==> r.None?
    ensures v == Some(Null) ==> r == Some(Null)
    ensures r.Some? ==> AngleFreeOutsideSkipped(r.value)
    ensures v.Some? && Constructorless(v.value) ==> AngleFree(r.value)
  {
    if v.None? then None
    else
      SanitizedIsAngleFree(ConstructorTest, v.value);
      SanitizedSkipsOnlyConstructorObjects(ConstructorTest, v.value);
      Some(Sanitize(ConstructorTest, v.value))
  }

  /**
   * `sanitizeBody` and `sanitizeQuery`: a truthy request part is replaced by
   * its sanitised form; a missing or falsy one is left as it is.
   */
  function SanitizeRequestPart(part: Option<Value>): (r: Option<Value>)
    ensures r.None? <==> part.None?
    ensures part.Some? && Truthy(part.value) ==> r == SanitizeInput(part)
    ensures part.Some? && !Truthy(part.value) ==> r == part
  {
    if part.Some? && Truthy(part.value) then SanitizeInput(part) else part
  }

  /** The truthiness guard changes nothing: every falsy value is its own sanitised form. */
  lemma GuardChangesNothing(part: Option<Value>)
    ensures SanitizeRequestPart(part) == SanitizeInput(part)
  {
    if part.Some? && part.value.Str? && part.value.s == "" {
      assert |SanitizeString("")| <= 0;
    }
  }

  /** No string anywhere in the value, object keys included, holds '<' or '>'. */
  predicate AngleFree(v: Value)
    decreases v
  {
    match v
    case Str(s) => NoAngle(s)
    case Arr(items) => forall i :: 0 <= i < |items| ==> AngleFree(items[i])
    case Obj(entries) => forall i :: 0 <= i < |entries| ==> NoAngle(entries[i].0) && AngleFree(entries[i].1)
    case _ => true
  }

  /**
   * Like `AngleFree`, except that an object holding an own "constructor" key is
   * not looked into.
   */
  predicate AngleFreeOutsideSkipped(v: Value)
    decreases v
  {
    match v
    case Str(s) => NoAngle(s)
    case Arr(items) => forall i :: 0 <= i < |items| ==> AngleFreeOutsideSkipped(items[i])
    case Obj(entries) =>
      OwnConstructor(entries)
      || forall i :: 0 <= i < |entries| ==> NoAngle(entries[i].0) && AngleFreeOutsideSkipped(entries[i].1)
    case _ => true
  }

  /**
   * When every object in the input passes the plain-object test, the sanitised
   * value holds no angle bracket in any string or key.
   */
  lemma {:induction false} SanitizedIsAngleFree(test: PlainTest, v: Value)
    ensures test == PrototypeTest || Constructorless(v) ==> AngleFree(Sanitize(test, v))
    decreases v, 1
  {
    if test == PrototypeTest || Constructorless(v) {
      match v
      case Str(s) =>
      case Arr(items) =>
        forall i | 0 <= i < |items|
          ensures AngleFree(Sanitize(test, v).items[i])
        {
          SanitizedIsAngleFree(test, items[i]);
        }
      case Obj(entries) =>
        var pairs := SanitizedPairs(test, v);
        var r := Sanitize(test, v).entries;
        forall j | 0 <= j < |entries|
          ensures NoAngle(pairs[j].0) && AngleFree(pairs[j].1)
        {
          SanitizedIsAngleFree(test, entries[j].1);
        }
        forall i | 0 <= i < |r|
          ensures NoAngle(r[i].0) && AngleFree(r[i].1)
        {
          assert r[i] in pairs;
        }
      case _ =>
    }
  }

  /** Whatever the input, angle brackets survive only inside objects that failed the test. */
  lemma {:induction false} SanitizedSkipsOnlyConstructorObjects(test: PlainTest, v: Value)
    ensures AngleFreeOutsideSkipped(Sanitize(test, v))
    decreases v, 1
  {
    match v
    case Str(s) =>
    case Arr(items) =>
      forall i | 0 <= i < |items|
        ensures AngleFreeOutsideSkipped(Sanitize(test, v).items[i])
      {
        SanitizedSkipsOnlyConstructorObjects(test, items[i]);
      }
    case Obj(entries) =>
      if Plain(test, entries) {
        var pairs := SanitizedPairs(test, v);
        var r := Sanitize(test, v).entries;
        forall j | 0 <= j < |entries|
          ensures NoAngle(pairs[j].0) && AngleFreeOutsideSkipped(pairs[j].1)
        {
          SanitizedSkipsOnlyConstructorObjects(test, entries[j].1);
        }
        forall i | 0 <= i < |r|
          ensures NoAngle(r[i].0) && AngleFreeOutsideSkipped(r[i].1)
        {
          assert r[i] in pairs;
        }
      }
    case _ =>
  }

  /**
   * As written: `{"constructor": 1, "note": "<b>"}` fails `obj.constructor === Object`,
   * so it comes back as it is, angle brackets included.
   */
  lemma ConstructorKeyKeepsAngles()
    ensures var v := Obj([("constructor", Num(1.0)), ("note", Str("<b>"))]);
            && SanitizeInput(Some(v)) == Some(v)
            && !AngleFree(SanitizeInput(Some(v)).value)
  {
    var v := Obj([("constructor", Num(1.0)), ("note", Str("<b>"))]);
    assert v.entries[0].0 == "constructor";
    assert !NoAngle("<b>") by { assert "<b>"[0] == '<'; }
    assert v.entries[1].1 == Str("<b>");
  }

  /** Corrected: with the prototype test, every sanitised value is free of angle brackets. */
  lemma PrototypeTestIsAngleFree(v: Value)
    ensures AngleFree(Sanitize(PrototypeTest, v))
  {
    SanitizedIsAngleFree(PrototypeTest, v);
  }

  /** The two tests agree on every input that holds no "constructor" key. */
  lemma {:induction false} TestsAgree(v: Value)
    requires Constructorless(v)
    ensures Sanitize(ConstructorTest, v) == Sanitize(PrototypeTest, v)
    decreases v, 1
  {
    match v
    case Arr(items) =>
      forall i | 0 <= i < |items|
        ensures Sanitize(ConstructorTest, items[i]) == Sanitize(PrototypeTest, items[i])
      {
        TestsAgree(items[i]);
      }
    case Obj(entries) =>
      forall j | 0 <= j < |entries|
        ensures Sanitize(ConstructorTest, entries[j].1) == Sanitize(PrototypeTest, entries[j].1)
      {
        TestsAgree(entries[j].1);
      }
      assert SanitizedPairs(ConstructorTest, v) == SanitizedPairs(PrototypeTest, v);
    case _ =>
  }

  /** Arrays keep their length and order, each element sanitised. */
  lemma ArrayCase(test: PlainTest, items: seq<Value>, i: int)
    requires 0 <= i < |items|
    ensures Sanitize(test, Arr(items)).items[i] == Sanitize(test, items[i])
  {
  }

  /**
   * Objects: one that fails the plain-object test comes back as it is. Otherwise
   * the result holds a key exactly when some input key sanitises to it, with the
   * sanitised value of the last such entry, so keys that collide once sanitised
   * keep the later value.
   */
  lemma ObjectCase(test: PlainTest, entries: seq<(string, Value)>, key: string)
    ensures !Plain(test, entries) ==> Sanitize(test, Obj(entries)) == Obj(entries)
    ensures Plain(test, entries) ==>
              var r := Sanitize(test, Obj(entries)).entries;
              && (Get(r, key).Some? <==> exists j :: 0 <= j < |entries| && SanitizeString(entries[j].0) == key)
              && forall j :: 0 <= j < |entries| && SanitizeString(entries[j].0) == key
                               && (forall l :: j < l < |entries| ==> SanitizeString(entries[l].0) != key)
                             ==> Get(r, key) == Some(Sanitize(test, entries[j].1))
  {
    if Plain(test, entries) {
      var pairs := SanitizedPairs(test, Obj(entries));
      assert Sanitize(test, Obj(entries)).entries == Assign(pairs);
      GetAssign(pairs, key);
      forall j | 0 <= j < |entries|
        ensures pairs[j].0 == SanitizeString(entries[j].0) && pairs[j].1 == Sanitize(test, entries[j].1)
      {
      }
    }
  }

  /**
   * Two keys that sanitise to the same key leave one entry, holding the later
   * value, unless either key is "constructor" under the source's test.
   */
  lemma CollidingKeys(test: PlainTest, k1: string, k2: string, a: Value, b: Value)
    requires SanitizeString(k1) == SanitizeString(k2)
    ensures Plain(test, [(k1, a), (k2, b)]) ==> |Sanitize(test, Obj([(k1, a), (k2, b)])).entries| == 1
    ensures Plain(test, [(k1, a), (k2, b)]) ==>
              Get(Sanitize(test, Obj([(k1, a), (k2, b)])).entries, SanitizeString(k2)) == Some(Sanitize(test, b))
    ensures !Plain(test, [(k1, a), (k2, b)]) ==> Sanitize(test, Obj([(k1, a), (k2, b)])) == Obj([(k1, a), (k2, b)])
  {
    var entries := [(k1, a), (k2, b)];
    if Plain(test, entries) {
      var pairs := SanitizedPairs(test, Obj(entries));
      assert pairs == [(SanitizeString(k1), Sanitize(test, a)), (SanitizeString(k2), Sanitize(test, b))];
      assert Assign(pairs[..1]) == [pairs[0]];
      assert pairs[..1] == [pairs[0]];
      ObjectCase(test, entries, SanitizeString(k2));
    }
  }

  /** A key and the same key in angle brackets are such a pair. */
  lemma BracketedKeyCollides()
    ensures SanitizeString("<k>") == SanitizeString("k") == "k"
  {
    BracketedKeyStages();
    PlainKeyStages();
  }

  lemma BracketedKeyStages()
    ensures SanitizeString("<k>") == "k"
  {
    ChainIsNested("<k>");
    BracketedKeySteps();
  }

  lemma BracketedKeySteps()
    ensures Trim("<k>") == "<k>" && RemoveScripts("<k>") == "<k>" && RemoveScheme("<k>") == "<k>"
    ensures RemoveHandlers("<k>") == "<k>" && RemoveAngles("<k>") == "k"
  {
    TrimOfTrimmed("<k>");
    BracketedKeyScripts();
    BracketedKeyRest();
  }

  lemma BracketedKeyScripts()
    ensures RemoveScripts("<k>") == "<k>"
  {
    assert "<k>"[1..] == "k>" && "k>"[1..] == ">" && ">"[1..] == [];
  }

  lemma BracketedKeyRest()
    ensures RemoveScheme("<k>") == "<k>" && RemoveHandlers("<k>") == "<k>" && RemoveAngles("<k>") == "k"
  {
    assert "<k>"[1..] == "k>" && "k>"[1..] == ">" && ">"[1..] == [];
  }

  lemma PlainKeyStages()
    ensures SanitizeString("k") == "k"
  {
    ChainIsNested("k");
    PlainKeySteps();
  }

  lemma PlainKeySteps()
    ensures Trim("k") == "k" && RemoveScripts("k") == "k" && RemoveScheme("k") == "k"
    ensures RemoveHandlers("k") == "k" && RemoveAngles("k") == "k"
  {
    TrimOfTrimmed("k");
    PlainKeyScripts();
    PlainKeyRest();
  }

  lemma PlainKeyScripts()
    ensures RemoveScripts("k") == "k"
  {
    assert "k"[1..] == [];
  }

  lemma PlainKeyRest()
    ensures RemoveScheme("k") == "k" && RemoveHandlers("k") == "k" && RemoveAngles("k") == "k"
  {
    assert "k"[1..] == [];
  }

  /**
   * The object case as the source runs it: the plain-object test, then a loop
   * filling a fresh object.
   */
  method SanitizeObject(entries: seq<(string, Value)>) returns (sanitized: seq<(string, Value)>)
    ensures Obj(sanitized) == Sanitize(ConstructorTest, Obj(entries))
  {
    if !Plain(ConstructorTest, entries) {
      return entries;
    }
    ghost var pairs := SanitizedPairs(ConstructorTest, Obj(entries));
    sanitized := [];
    for i := 0 to |entries|
      invariant sanitized == Assign(pairs[..i])
    {
      var (key, value) := entries[i];
      var sanitizedKey := SanitizeString(key);
      assert pairs[i] == (sanitizedKey, Sanitize(ConstructorTest, value));
      assert pairs[..i + 1][..i] == pairs[..i];
      sanitized := Put(sanitized, sanitizedKey, Sanitize(ConstructorTest, value));
    }
    assert pairs[..|entries|] == pairs;
    assert Sanitize(ConstructorTest, Obj(entries)) == Obj(Assign(pairs));
  }

  /** Removing `<script>` blocks changes a string exactly when one starts somewhere in it. */
  lemma {:induction false} ScriptsKeptIffAbsent(s: string)
    ensures RemoveScripts(s) == s <==> forall k :: 0 <= k <= |s| ==> ScriptAt(s[k..]) == 0
  {
    if ScriptAt(s) > 0 {
      assert s[0..] == s;
    } else if s != [] {
      ScriptsKeptIffAbsent(s[1..]);
      assert forall k :: 1 <= k <= |s| ==> s[1..][k - 1..] == s[k..];
      assert s[0..] == s;
    }
  }

  /** Removing the scheme changes a string exactly when it occurs in it, in any letter case. */
  lemma {:induction false} SchemeKeptIffAbsent(s: string)
    ensures RemoveScheme(s) == s <==> forall k :: 0 <= k <= |s| ==> !StartsWithCi(s[k..], Scheme)
  {
    if StartsWithCi(s, Scheme) {
      assert s[0..] == s;
    } else if s != [] {
      SchemeKeptIffAbsent(s[1..]);
      assert forall k :: 1 <= k <= |s| ==> s[1..][k - 1..] == s[k..];
      assert s[0..] == s;
    }
  }

  /** Removing handler prefixes changes a string exactly when one starts somewhere in it. */
  lemma {:induction false} HandlersKeptIffAbsent(s: string)
    ensures RemoveHandlers(s) == s <==> forall k :: 0 <= k <= |s| ==> HandlerAt(s[k..]) == 0
  {
    if HandlerAt(s) > 0 {
      assert s[0..] == s;
    } else if s != [] {
      HandlersKeptIffAbsent(s[1..]);
      assert forall k :: 1 <= k <= |s| ==> s[1..][k - 1..] == s[k..];
      assert s[0..] == s;
    }
  }

  /** The last link changes a string exactly when it holds an angle bracket. */
  lemma {:induction false} AnglesKeptIffAbsent(s: string)
    ensures RemoveAngles(s) == s <==> NoAngle(s)
  {
    if s != [] {
      AnglesKeptIffAbsent(s[1..]);
      if IsAngle(s[0]) {
        assert |RemoveAngles(s)| < |s| by { assert |RemoveAngles(s)| == |RemoveAngles(s[1..])|; }
      }
    }
  }
}
