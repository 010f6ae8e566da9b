module Wrappers {

  datatype Option<+T> = None | Some(value: T) {
    /** `x ?? fallback` for a value that is either present or absent. */
    function GetOr(fallback: T): T {
      if Some? then value else fallback
    }
  }
}

/**
 * Loosely typed values as the stores receive them from `JSON.parse`, with the
 * JavaScript operators the normalisers apply to them: optional property access
 * (`v?.k`), nullish coalescing (`a ?? b`), truthiness and `String(v)`.
 * `undefined` and `null` are both `Null`: every operator used here treats them
 * alike, except `'k' in v`, which is `HasField`.
 */
module Js {
  import opened Wrappers
  import opened Text

  datatype Json =
    | Null
    | Bool(b: bool)
    | Num(n: int)
    | Str(s: string)
    | Arr(elems: seq<Json>)
    | Obj(fields: map<string, Json>)
  {
    /** `this ?? other`. */
    function Or(other: Json): Json {
      if Null? then other else this
    }
  }

  /** `v?.[key]`: the member when `v` is an object that has it, `undefined` otherwise. */
  function Get(v: Json, key: string): Json {
    if v.Obj? && key in v.fields then v.fields[key] else Null
  }

  /** `typeof v === 'object' && v !== null && key in v`. */
  predicate HasField(v: Json, key: string) {
    v.Obj? && key in v.fields
  }

  /** `v != null && typeof v === 'object'`: arrays and plain objects. */
  predicate IsObjectLike(v: Json) {
    v.Arr? || v.Obj?
  }

  /** `Boolean(v)`. */
  predicate Truthy(v: Json) {
    match v
    case Null => false
    case Bool(b) => b
    case Num(n) => n != 0
    case Str(s) => s != ""
    case _ => true
  }

  /** `v[keys[0]] ?? v[keys[1]] ?? ...`: the first member that is neither null nor undefined. */
  function Coalesce(v: Json, keys: seq<string>): (r: Json)
    ensures r.Null? <==> forall i :: 0 <= i < |keys| ==> Get(v, keys[i]).Null?
    ensures !r.Null? ==>
      exists i :: 0 <= i < |keys| && Get(v, keys[i]) == r && forall j :: 0 <= j < i ==> Get(v, keys[j]).Null?
  {
    if keys == [] then Null
    else if !Get(v, keys[0]).Null? then Get(v, keys[0])
    else
      var r := Coalesce(v, keys[1..]);
      assert forall i :: 1 <= i < |keys| ==> keys[i] == keys[1..][i - 1];
      r
  }

  /** An object with a single member is found under any of the keys that name it. */
  lemma {:induction false} CoalesceSingleton(k: string, x: Json, keys: seq<string>)
    requires k in keys && !x.Null?
    ensures Coalesce(Obj(map[k := x]), keys) == x
  {
    if keys[0] != k {
      CoalesceSingleton(k, x, keys[1..]);
    }
  }

  function JoinComma(parts: seq<string>): string {
    if |parts| == 0 then ""
    else if |parts| == 1 then parts[0]
    else parts[0] + "," + JoinComma(parts[1..])
  }

  /**
   * `String(v)` for a value it does not throw on, with integers written out
   * in full: arrays join their elements with commas, writing null elements
   * as nothing.
   */
  function ToJsString(v: Json): string {
    match v
    case Null => "null"
    case Bool(b) => if b then "true" else "false"
    case Num(n) => IntToString(n)
    case Str(s) => s
    case Arr(xs) =>
      JoinComma(seq(|xs|, i requires 0 <= i < |xs| => if xs[i].Null? then "" else ToJsString(xs[i])))
    case Obj(_) => "[object Object]"
  }

  /** `v != null ? String(v) : undefined`. */
  function OptionalString(v: Json): Option<string> {
    if v.Null? then None else Some(ToJsString(v))
  }

  /** `String(v ?? fallback)`. */
  function StringOr(v: Json, fallback: string): string {
    if v.Null? then fallback else ToJsString(v)
  }

  /** `Array.isArray(v) ? v.map(String) : []`. */
  function StringList(v: Json): (r: seq<string>)
    ensures v.Arr? ==> |r| == |v.elems| && forall i :: 0 <= i < |r| ==> r[i] == ToJsString(v.elems[i])
    ensures !v.Arr? ==> r == []
  {
    if v.Arr? then seq(|v.elems|, i requires 0 <= i < |v.elems| => ToJsString(v.elems[i])) else []
  }

  /** `xs.filter(t => t != null && typeof t === 'object')`. */
  function ObjectElements(xs: seq<Json>): (r: seq<Json>)
    ensures |r| <= |xs|
    ensures forall i :: 0 <= i < |r| ==> IsObjectLike(r[i])
  {
    if xs == [] then []
    else
      var rest := ObjectElements(xs[1..]);
      if IsObjectLike(xs[0]) then [xs[0]] + rest else rest
  }

  /** The filter keeps exactly the records: the arrays and objects of `xs`. */
  lemma {:induction false} ObjectElementsMembers(xs: seq<Json>, x: Json)
    ensures x in ObjectElements(xs) <==> x in xs && IsObjectLike(x)
  {
    if xs != [] {
      ObjectElementsMembers(xs[1..], x);
      assert xs == [xs[0]] + xs[1..];
    }
  }

  /** The filter keeps order: it distributes over concatenation. */
  lemma {:induction false} ObjectElementsAppend(xs: seq<Json>, ys: seq<Json>)
    ensures ObjectElements(xs + ys) == ObjectElements(xs) + ObjectElements(ys)
  {
    if xs == [] {
      assert xs + ys == ys;
    } else {
      assert (xs + ys)[1..] == xs[1..] + ys;
      ObjectElementsAppend(xs[1..], ys);
    }
  }

  /** An array made only of records passes the filter unchanged. */
  lemma {:induction false} ObjectElementsOfRecords(xs: seq<Json>)
    requires forall i :: 0 <= i < |xs| ==> IsObjectLike(xs[i])
    ensures ObjectElements(xs) == xs
  {
    if xs != [] {
      ObjectElementsOfRecords(xs[1..]);
    }
  }

  /**
   * The records a collection response holds: the object elements of a bare
   * array, or of the array found under the first non-null envelope key;
   * nothing for any other shape.
   */
  function Records(data: Json, envelope: seq<string>): (r: seq<Json>)
    ensures forall i :: 0 <= i < |r| ==> IsObjectLike(r[i])
  {
    match data
    case Arr(xs) => ObjectElements(xs)
    case Obj(_) =>
      var inner := Coalesce(data, envelope);
      if inner.Arr? then ObjectElements(inner.elems) else []
    case _ => []
  }

  /** Every supported envelope key yields the same records as the bare array it wraps. */
  lemma EnvelopeUnwrapped(k: string, xs: seq<Json>, envelope: seq<string>)
    requires k in envelope
    ensures Records(Obj(map[k := Arr(xs)]), envelope) == Records(Arr(xs), envelope)
  {
    CoalesceSingleton(k, Arr(xs), envelope);
  }

  /** A list of strings as a JSON array, as `JSON.stringify` writes a `string[]`. */
  function StrArray(xs: seq<string>): (r: Json)
    ensures r.Arr? && |r.elems| == |xs|
  {
    Arr(seq(|xs|, i requires 0 <= i < |xs| => Str(xs[i])))
  }

  /** Reading a string array back with `map(String)` gives the original list. */
  lemma StringListOfStrArray(xs: seq<string>)
    ensures StringList(StrArray(xs)) == xs
  {
    var r := StringList(StrArray(xs));
    forall i | 0 <= i < |xs| ensures r[i] == xs[i] {
      assert StrArray(xs).elems[i] == Str(xs[i]);
    }
  }

  /** Which spelling of the member names a record uses: camelCase, or the alternate the readers also accept. */
  datatype Casing = Camel | Alternate

  function Key(c: Casing, camel: string, alternate: string): string {
    if c == Camel then camel else alternate
  }

  function WithOptional(m: map<string, Json>, k: string, v: Option<string>): map<string, Json> {
    if v.Some? then m[k := Str(v.value)] else m
  }

  predicate IsDigit(c: char) {
    '0' <= c <= '9'
  }

  predicate AllDigits(s: string) {
    forall i :: 0 <= i < |s| ==> IsDigit(s[i])
  }

  /** The value of a string of decimal digits. */
  function DigitsValue(s: string): nat
    requires AllDigits(s)
  {
    if s == [] then 0 else DigitsValue(s[..|s| - 1]) * 10 + (s[|s| - 1] as int - '0' as int)
  }

  /**
   * `Number(s) || 0` for a string: white space around the text is ignored, an
   * empty text is 0, an optionally signed run of decimal digits is its value,
   * and anything else is `NaN`, which `|| 0` turns into 0.
   */
  function StringNumberOrZero(s: string): int {
    var t := Trim(s);
    if t == "" then 0
    else if AllDigits(t) then DigitsValue(t)
    else if |t| > 1 && t[0] == '-' && AllDigits(t[1..]) then -(DigitsValue(t[1..]) as int)
    else if |t| > 1 && t[0] == '+' && AllDigits(t[1..]) then DigitsValue(t[1..])
    else 0
  }

  /** `Number(v) || 0`. Arrays and objects are converted through their `String(v)`. */
  function NumberOrZero(v: Json): int {
    match v
    case Null => 0
    case Bool(b) => if b then 1 else 0
    case Num(n) => n
    case Str(s) => StringNumberOrZero(s)
    case _ => StringNumberOrZero(ToJsString(v))
  }

  /** The decimal rendering of a natural number is a run of digits whose value is that number. */
  lemma {:induction false} NatToStringValue(n: nat)
    ensures AllDigits(NatToString(n)) && DigitsValue(NatToString(n)) == n
  {
    if n >= 10 {
      NatToStringValue(n / 10);
      var s := NatToString(n);
      assert s == NatToString(n / 10) + [DigitChar(n % 10)];
      assert s[..|s| - 1] == NatToString(n / 10);
    }
  }

  /** `Number(String(n)) || 0 === n`: a number written as a string reads back as itself. */
  lemma NumberOfIntString(n: int)
    ensures NumberOrZero(Str(IntToString(n))) == n
  {
    var m: nat := if n < 0 then -n else n;
    NatToStringValue(m);
    var t := IntToString(n);
    if n < 0 {
      assert t[0] == '-' && t[1..] == NatToString(m);
      assert !AllDigits(t) by { assert !IsDigit(t[0]); }
    }
    assert forall i :: 0 <= i < |t| ==> !IsJsSpace(t[i]) by {
      forall i | 0 <= i < |t| ensures !IsJsSpace(t[i]) {
        if n < 0 && i > 0 {
          assert t[i] == NatToString(m)[i - 1];
        }
      }
    }
    NoSpaceTrimmed(t);
  }
}
