/**
 * The parts of JavaScript's value semantics that the form code relies on:
 * JSON-like values, truthiness, `String(v)`, `Number(v)`, `new Date(v)`,
 * whitespace as `\s` and `trim()` see it, and ASCII case folding.
 *
 * Services whose exact behaviour lives in the JavaScript engine (number
 * formatting, numeric and date parsing, regular-expression compilation,
 * JSON.stringify, toISOString) are fields of a `Runtime` value that every
 * caller passes in; the model never fixes them.
 */
module Js {
  import opened Wrappers

  /** A JSON value. Object entries are kept in enumeration order. */
  datatype Value =
    | Null
    | Bool(b: bool)
    | Num(n: real)
    | Str(s: string)
    | Arr(items: seq<Value>)
    | Obj(entries: seq<(string, Value)>)

  /** A flat answer map; a key that is absent reads as `undefined`. */
  type Answers = map<string, Value>

  /** The engine services the model leaves open. */
  datatype Runtime = Runtime(
    numberText: real -> string,                // String(n) for a finite number
    parseNumber: string -> Option<real>,       // Number(s); None is NaN
    parseDate: string -> bool,                 // whether Date.parse(s) is not NaN
    regexTest: (string, string) -> Option<bool>, // new RegExp(p).test(s); None: p does not compile
    stringify: Value -> string,                // JSON.stringify
    isoTime: int -> string                     // new Date(ms).toISOString()
  )

  /** `answers[key]`, with `undefined` as None. */
  function Lookup(answers: Answers, key: string): (r: Option<Value>)
    ensures r.Some? <==> key in answers
    ensures r.Some? ==> r.value == answers[key]
  {
    if key in answers then Some(answers[key]) else None
  }

  /**
   * The names every plain object inherits from `Object.prototype` (section 20.1.3
   * of ECMA-262 and its Annex B.2.2).
   */
  predicate IsInheritedName(key: string) {
    key in {"constructor", "hasOwnProperty", "isPrototypeOf", "propertyIsEnumerable", "toLocaleString",
            "toString", "valueOf", "__proto__", "__defineGetter__", "__defineSetter__",
            "__lookupGetter__", "__lookupSetter__"}
  }

  /** What `obj[key]` reads on a plain object: an own property, an inherited member, or `undefined`. */
  datatype Read = Own(v: Value) | Inherited(name: string) | Missing

  /** `answers[key]` as the engine evaluates it, inherited members included. */
  function PropertyRead(answers: Answers, key: string): (r: Read)
    ensures r.Own? <==> key in answers
    ensures r.Own? ==> r.v == answers[key]
    ensures r.Inherited? <==> key !in answers && IsInheritedName(key)
    ensures r.Missing? <==> Lookup(answers, key).None? && !IsInheritedName(key)
  {
    if key in answers then Own(answers[key])
    else if IsInheritedName(key) then Inherited(key)
    else Missing
  }

  /**
   * The blank test on what was read: an inherited member is a function or
   * `Object.prototype` itself, never null, undefined or ''.
   */
  predicate ReadIsBlank(r: Read) {
    match r
    case Own(v) => Blank(Some(v))
    case Inherited(_) => false
    case Missing => true
  }

  /** `value === null || value === undefined || value === ''`. */
  predicate Blank(v: Option<Value>) {
    v.None? || v.value == Null || v.value == Str("")
  }

  /** JavaScript truthiness (JSON values carry no NaN). */
  predicate Truthy(v: Value) {
    match v
    case Null => false
    case Bool(b) => b
    case Num(n) => n != 0.0
    case Str(s) => s != ""
    case Arr(_) => true
    case Obj(_) => true
  }

  lemma BlankIsFalsy(v: Value)
    requires Blank(Some(v))
    ensures !Truthy(v)
  {
  }

  /** `Array.prototype.join`. */
  function Join(parts: seq<string>, sep: string): string {
    if |parts| == 0 then ""
    else if |parts| == 1 then parts[0]
    else parts[0] + sep + Join(parts[1..], sep)
  }

  /** `String(v)`. */
  function ToStr(rt: Runtime, v: Value): string
    decreases v
  {
    match v
    case Null => "null"
    case Bool(b) => if b then "true" else "false"
    case Num(n) => rt.numberText(n)
    case Str(s) => s
    case Arr(items) => Join(ElementTexts(rt, items), ",")
    case Obj(_) => "[object Object]"
  }

  /** What `join` writes for each element: nothing for null, `String(e)` otherwise. */
  function ElementTexts(rt: Runtime, items: seq<Value>): (r: seq<string>)
    decreases items
    ensures |r| == |items|
  {
    if |items| == 0 then []
    else [if items[0] == Null then "" else ToStr(rt, items[0])] + ElementTexts(rt, items[1..])
  }

  /** `Number(v)`; None stands for NaN. */
  function ToNumber(rt: Runtime, v: Value): Option<real> {
    match v
    case Null => Some(0.0)
    case Bool(b) => Some(if b then 1.0 else 0.0)
    case Num(n) => Some(n)
    case Str(s) => rt.parseNumber(s)
    case _ => rt.parseNumber(ToStr(rt, v))
  }

  /** The largest time value a Date may hold (section 21.4.1.1 of ECMA-262). */
  const MaxTime: real := 8640000000000000.0

  /** `!isNaN(new Date(v).getTime())`: strings are parsed, numbers are time values. */
  predicate IsValidDate(rt: Runtime, v: Value) {
    match v
    case Null => true
    case Bool(_) => true
    case Num(n) => -MaxTime <= n <= MaxTime
    case Str(s) => rt.parseDate(s)
    case _ => rt.parseDate(ToStr(rt, v))
  }

  /** The characters `\s` matches and `trim()` removes. */
  predicate IsSpace(c: char) {
    c == ' ' || c == '\t' || c == '\n' || c == '\r' || c == '\U{B}' || c == '\U{C}'
    || c == '\U{A0}' || c == '\U{1680}' || ('\U{2000}' <= c <= '\U{200A}')
    || c == '\U{2028}' || c == '\U{2029}' || c == '\U{202F}' || c == '\U{205F}'
    || c == '\U{3000}' || c == '\U{FEFF}'
  }

  /** The characters `\w` matches. */
  predicate IsWordChar(c: char) {
    ('a' <= c <= 'z') || ('A' <= c <= 'Z') || ('0' <= c <= '9') || c == '_'
  }

  /** ASCII lower-casing, the part of `toLowerCase` and of `/i` the code depends on. */
  function Lower(c: char): (r: char)
    ensures 'A' <= c <= 'Z' ==> 'a' <= r <= 'z'
    ensures !('A' <= c <= 'Z') ==> r == c
  {
    if 'A' <= c <= 'Z' then (c as int + 32) as char else c
  }

  function LowerAll(s: string): (r: string)
    ensures |r| == |s|
    ensures forall i :: 0 <= i < |s| ==> r[i] == Lower(s[i])
  {
    if s == [] then [] else [Lower(s[0])] + LowerAll(s[1..])
  }

  function TrimStart(s: string): (r: string)
    ensures |r| <= |s| && r == s[|s| - |r|..]
    ensures r == [] || !IsSpace(r[0])
    ensures forall i :: 0 <= i < |s| - |r| ==> IsSpace(s[i])
  {
    if s != [] && IsSpace(s[0]) then TrimStart(s[1..]) else s
  }

  function TrimEnd(s: string): (r: string)
    ensures |r| <= |s| && r == s[..|r|]
    ensures r == [] || !IsSpace(r[|r| - 1])
    ensures forall i :: |r| <= i < |s| ==> IsSpace(s[i])
  {
    if s != [] && IsSpace(s[|s| - 1]) then TrimEnd(s[..|s| - 1]) else s
  }

  /** The UTF-16 code units of one character: two above U+FFFF (a surrogate pair), one otherwise. */
  function CodeUnits(c: char): nat {
    if c as int > 0xFFFF then 2 else 1
  }

  /** `s.length`, which counts UTF-16 code units rather than characters. */
  function Utf16Length(s: string): (n: nat)
    ensures |s| <= n <= 2 * |s|
  {
    if s == [] then 0 else CodeUnits(s[0]) + Utf16Length(s[1..])
  }

  /** The two counts differ exactly by the characters outside the Basic Multilingual Plane. */
  lemma {:induction false} Utf16LengthOfBmp(s: string)
    ensures Utf16Length(s) == |s| <==> forall i :: 0 <= i < |s| ==> s[i] as int <= 0xFFFF
  {
    if s != [] {
      Utf16LengthOfBmp(s[1..]);
      assert forall i :: 1 <= i < |s| ==> s[i] == s[1..][i - 1];
    }
  }

  /** `String.prototype.trim`. */
  function Trim(s: string): (r: string)
    ensures |r| <= |s|
  {
    TrimEnd(TrimStart(s))
  }

  /** Trimming a string that neither starts nor ends with white space changes nothing. */
  lemma TrimOfTrimmed(s: string)
    requires s == [] || (!IsSpace(s[0]) && !IsSpace(s[|s| - 1]))
    ensures Trim(s) == s
  {
  }

  /** A trimmed string is its own trim: `trim` is idempotent. */
  lemma TrimIdempotent(s: string)
    ensures Trim(Trim(s)) == Trim(s)
  {
    var t := TrimStart(s);
    var r := TrimEnd(t);
    if r != [] {
      assert r == t[..|r|] && r[0] == t[0];
      TrimOfTrimmed(r);
    }
  }
}
