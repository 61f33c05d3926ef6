/**
 * The slice of the JavaScript runtime the library relies on: its dynamic
 * values, truthiness, template-literal string conversion and
 * `Array.prototype.slice` with a single start argument.
 */
module Js {

  /**
   * A JavaScript value as it reaches the library. Numbers are integers here
   * (floating point is not modelled) and a function is known only by an
   * identity, since its code is outside the model.
   */
  datatype Value =
    | Undefined
    | Null
    | Bool(b: bool)
    | Num(n: int)
    | Str(s: string)
    | Arr(items: seq<Value>)
    | Obj(props: map<string, Value>)
    | Func(id: nat)

  /** JavaScript truthiness (`if (v)`, `v ? a : b`, `v || w`). */
  predicate Truthy(v: Value)
  {
    match v
    case Undefined => false
    case Null => false
    case Bool(b) => b
    case Num(n) => n != 0
    case Str(s) => s != ""
    case _ => true
  }

  /** The `typeof` operator; `null` and arrays report "object". */
  function TypeOf(v: Value): string
  {
    match v
    case Undefined => "undefined"
    case Null => "object"
    case Bool(_) => "boolean"
    case Num(_) => "number"
    case Str(_) => "string"
    case Arr(_) => "object"
    case Obj(_) => "object"
    case Func(_) => "function"
  }

  /** A property of a plain object-like map: `undefined` when it is absent. */
  function Get(m: map<string, Value>, key: string): (r: Value)
    ensures key !in m ==> r == Undefined
    ensures key in m ==> r == m[key]
  {
    if key in m then m[key] else Undefined
  }

  /** The number a string of decimal digits denotes, read most significant digit first. */
  function DecimalValue(digits: string): nat
    requires forall c | c in digits :: '0' <= c <= '9'
    decreases |digits|
  {
    if digits == [] then 0
    else
      var n := |digits| - 1;
      assert forall c | c in digits[..n] :: c in digits;
      assert digits[n] in digits;
      DecimalValue(digits[..n]) * 10 + (digits[n] as int - '0' as int)
  }

  /**
   * The decimal digits of a natural number, as `String(n)` writes them:
   * they denote `n`, and only zero itself starts with a `0`.
   */
  function NatToDecimal(n: nat): (r: string)
    decreases n
    ensures |r| > 0
    ensures forall c | c in r :: '0' <= c <= '9'
    ensures DecimalValue(r) == n
    ensures r[0] == '0' <==> n == 0
  {
    var digit := ['0' + (n % 10) as char];
    if n < 10 then digit
    else
      var high := NatToDecimal(n / 10);
      var r := high + digit;
      assert r[..|r| - 1] == high;
      r
  }

  /** Joins strings with a separator, as `Array.prototype.join` does. */
  function Join(parts: seq<string>, sep: string): (r: string)
    ensures |parts| == 1 ==> r == parts[0]
    ensures parts == [] ==> r == ""
  {
    if parts == [] then ""
    else if |parts| == 1 then parts[0]
    else parts[0] + sep + Join(parts[1..], sep)
  }

  /**
   * The string a template literal `${v}` produces. A function would print its
   * own source text, which the model does not have; a fixed placeholder
   * stands in for it.
   */
  function ToJsString(v: Value): (r: string)
    decreases v
    ensures v.Str? ==> r == v.s
    ensures v.Undefined? ==> r == "undefined"
    ensures v.Null? ==> r == "null"
    ensures v.Bool? ==> r == if v.b then "true" else "false"
    ensures v.Num? && v.n >= 0 ==> r == NatToDecimal(v.n)
    ensures v.Num? && v.n < 0 ==> r == "-" + NatToDecimal(-v.n)
    ensures v.Arr? && v.items == [] ==> r == ""
    ensures v.Arr? && |v.items| == 1 && v.items[0].Str? ==> r == v.items[0].s
    ensures v.Obj? ==> r == "[object Object]"
  {
    match v
    case Undefined => "undefined"
    case Null => "null"
    case Bool(b) => if b then "true" else "false"
    case Num(n) => if n < 0 then "-" + NatToDecimal(-n) else NatToDecimal(n)
    case Str(s) => s
    case Arr(items) =>
      // Array.prototype.join(","): undefined and null elements print as "".
      Join(seq(|items|, i requires 0 <= i < |items| =>
             if items[i].Undefined? || items[i].Null? then "" else ToJsString(items[i])), ",")
    case Obj(_) => "[object Object]"
    case Func(_) => "function"
  }

  /** Strings as JavaScript string values, in the same order. */
  function StrValues(args: seq<string>): (r: seq<Value>)
    ensures |r| == |args| && forall i | 0 <= i < |args| :: r[i] == Str(args[i])
  {
    seq(|args|, i requires 0 <= i < |args| => Str(args[i]))
  }

  /**
   * `s.slice(start)`: a negative start counts back from the end (clamped at
   * 0), a start beyond the end gives the empty sequence.
   */
  function JsSlice<T>(s: seq<T>, start: int): (r: seq<T>)
    ensures 0 <= start ==> r == s[if start <= |s| then start else |s|..]
    ensures start < 0 ==> r == s[if |s| + start >= 0 then |s| + start else 0..]
  {
    var from := if start < 0 then (if |s| + start >= 0 then |s| + start else 0)
                else (if start <= |s| then start else |s|);
    s[from..]
  }

  /** `a` is a suffix of `b`. */
  ghost predicate IsSuffix<T>(a: seq<T>, b: seq<T>)
  {
    |a| <= |b| && a == b[|b| - |a|..]
  }

  /** `JsSlice` always yields a suffix of its input. */
  lemma {:induction false} JsSliceIsSuffix<T>(s: seq<T>, start: int)
    ensures IsSuffix(JsSlice(s, start), s)
  {
  }
}
