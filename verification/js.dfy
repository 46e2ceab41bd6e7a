/** The slice of JavaScript's value model that the migration engine relies on:
    truthiness, `typeof … === "object"`, property lookup and `parseInt`. */
module Js {
  import opened Text

  /** A number as `parseInt` can produce it: an integer or NaN. */
  datatype Numeric = NaN | Int(n: int)

  datatype JsValue =
    | Undefined
    | Null
    | Bool(b: bool)
    | Number(x: Numeric)
    | Str(s: string)
    | Date(time: int)
    | Arr(items: seq<JsValue>)
    | Obj(fields: map<string, JsValue>)

  /** JavaScript truthiness: undefined, null, false, 0, NaN and "" are falsy. */
  predicate Truthy(v: JsValue) {
    match v
    case Undefined => false
    case Null => false
    case Bool(b) => b
    case Number(x) => x.Int? && x.n != 0
    case Str(s) => s != ""
    case _ => true
  }

  /** `typeof v === "object"` (null included, as JavaScript has it). */
  predicate TypeIsObject(v: JsValue) {
    v.Null? || v.Date? || v.Arr? || v.Obj?
  }

  /** `v[key]` on an object: its own property, or undefined. */
  function Get(v: JsValue, key: string): JsValue {
    if v.Obj? && key in v.fields then v.fields[key] else Undefined
  }

  /** `_pluck`: normalises a query result into the rows it carries. */
  function Pluck(result: JsValue, resultKey: string): (r: JsValue)
    ensures result.Arr? ==> r == result
    ensures !result.Arr? && result.Obj? && Truthy(Get(result, resultKey)) ==> r == Get(result, resultKey)
    ensures !result.Arr? && !(result.Obj? && Truthy(Get(result, resultKey))) ==> r == Arr([])
  {
    if result.Arr? then result
    else if TypeIsObject(result) && Truthy(result) && Truthy(Get(result, resultKey)) then Get(result, resultKey)
    else Arr([])
  }

  /** Whatever it is given, `_pluck` never yields a falsy value, and only an
      array or a truthy property of an object comes through. */
  lemma PluckNeverFalsy(result: JsValue, resultKey: string)
    ensures var r := Pluck(result, resultKey);
      Truthy(r) && (r.Arr? || (result.Obj? && r == result.fields[resultKey]))
  {
  }

  /** `v.length` on a value that is neither undefined nor null (on those the
      read throws): the element count of an array, the character count of a
      string, an object's own `length` property, and undefined otherwise. */
  function Length(v: JsValue): JsValue
    requires !v.Undefined? && !v.Null?
  {
    match v
    case Arr(items) => Number(Int(|items|))
    case Str(s) => Number(Int(|s|))
    case Obj(_) => Get(v, "length")
    case _ => Undefined
  }

  /** `v[k]` on a value that is neither undefined nor null: an array element,
      a one-character string, an object's own property named by the decimal
      `k`, or undefined. */
  function Element(v: JsValue, k: nat): JsValue
    requires !v.Undefined? && !v.Null?
  {
    match v
    case Arr(items) => if k < |items| then items[k] else Undefined
    case Str(s) => if k < |s| then Str([s[k]]) else Undefined
    case Obj(_) => Get(v, NatToString(k))
    case _ => Undefined
  }

  /** `Number(s)` on a string, for plain decimal digits (the empty string
      being 0); anything else is NaN here. */
  function StringToNumber(s: string): Numeric {
    if AllDigits(s) then Int(DigitsValue(s)) else NaN
  }

  /** The number a relational comparison turns `v` into: undefined is NaN,
      null 0, a boolean 0 or 1, a date its time; an object converts through
      its text, `[object Object]`, which is NaN; an array through the join of
      its elements, which is 0 when empty, the element's number when it has
      one element, and NaN (a comma) when it has more. */
  function ToNumber(v: JsValue): Numeric {
    match v
    case Undefined => NaN
    case Null => Int(0)
    case Bool(b) => Int(if b then 1 else 0)
    case Number(x) => x
    case Str(s) => StringToNumber(s)
    case Date(t) => Int(t)
    case Obj(_) => NaN
    case Arr(items) =>
      if items == [] then Int(0)
      else if |items| > 1 then NaN
      else match items[0]
        case Undefined => Int(0)
        case Null => Int(0)
        case Bool(_) => NaN
        case Number(x) => x
        case Str(s) => StringToNumber(s)
        case Date(_) => NaN
        case Obj(_) => NaN
        case Arr(_) => ToNumber(items[0])
  }

  predicate IsHexDigit(c: char) {
    IsDigit(c) || 'a' <= c <= 'f' || 'A' <= c <= 'F'
  }

  function HexDigitValue(c: char): (d: nat)
    requires IsHexDigit(c)
    ensures d < 16
  {
    if IsDigit(c) then DigitValue(c)
    else if 'a' <= c <= 'f' then c as int - 'a' as int + 10
    else c as int - 'A' as int + 10
  }

  function HexValue(s: string): nat
    requires forall i :: 0 <= i < |s| ==> IsHexDigit(s[i])
  {
    if s == [] then 0 else 16 * HexValue(s[..|s| - 1]) + HexDigitValue(s[|s| - 1])
  }

  /** `parseInt(s)` with no radix: leading white space and one sign are skipped,
      a `0x`/`0X` prefix selects base 16, and the longest prefix of digits is read;
      NaN when there is none. */
  function ParseInt(s: string): (r: Numeric)
    ensures r.NaN? <==>
      var t := s[RunLength(s, IsJsSpace)..];
      var u := if t != [] && (t[0] == '-' || t[0] == '+') then t[1..] else t;
      if |u| >= 2 && u[0] == '0' && (u[1] == 'x' || u[1] == 'X') then u[2..] == [] || !IsHexDigit(u[2])
      else u == [] || !IsDigit(u[0])
  {
    var t := s[RunLength(s, IsJsSpace)..];
    var sign := if t != [] && t[0] == '-' then -1 else 1;
    var u := if t != [] && (t[0] == '-' || t[0] == '+') then t[1..] else t;
    if |u| >= 2 && u[0] == '0' && (u[1] == 'x' || u[1] == 'X') then
      var h := u[2..];
      var k := RunLength(h, IsHexDigit);
      if k == 0 then NaN else Int(sign * HexValue(h[..k]))
    else
      var k := DigitRun(u);
      if k == 0 then NaN else Int(sign * DigitsValue(u[..k]))
  }

  /** On a string that starts with a digit and is not `0x…`, `parseInt` reads
      exactly the leading digits in base 10. */
  lemma ParseIntDecimal(s: string)
    requires s != [] && IsDigit(s[0])
    requires !(|s| >= 2 && s[0] == '0' && (s[1] == 'x' || s[1] == 'X'))
    ensures ParseInt(s) == Int(DigitsValue(s[..DigitRun(s)]))
  {
    assert RunLength(s, IsJsSpace) == 0;
  }
}
