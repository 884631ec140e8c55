/**
 * The JavaScript values a store holds, and the few language operations the store
 * code applies to them: truthiness (`!x`), the plain-object test, conversion of a
 * value to a property key, reading a property, and the object spread `{...v}`.
 */
module Values {
  import opened Wrappers

  /** A JavaScript value without functions. Numbers are modelled as integers. */
  datatype Value =
    | Undefined
    | Null
    | Bool(b: bool)
    | Num(n: int)
    | Str(s: string)
    | Arr(items: seq<Value>)
    | Obj(fields: map<string, Value>)

  /** `!!v`: undefined, null, false, 0 and "" are falsy; every array and object is truthy. */
  predicate Truthy(v: Value) {
    match v
    case Undefined => false
    case Null => false
    case Bool(b) => b
    case Num(n) => n != 0
    case Str(s) => s != ""
    case Arr(_) => true
    case Obj(_) => true
  }

  /** `isPlainObject(v)`: true of object literals only, false of arrays and primitives. */
  predicate IsPlainObject(v: Value) {
    v.Obj?
  }

  predicate IsDigit(c: char) {
    '0' <= c <= '9'
  }

  /** The decimal numeral of a natural number, most significant digit first. */
  function Decimal(n: nat): (s: string)
    ensures |s| >= 1
    ensures forall i :: 0 <= i < |s| ==> IsDigit(s[i])
    ensures n >= 10 ==> s[0] != '0'
    decreases n
  {
    var last := ['0' + (n % 10) as char];
    if n < 10 then last else Decimal(n / 10) + last
  }

  /** `String(n)` for an integer. */
  function IntToString(n: int): string {
    if n < 0 then "-" + Decimal(-n) else Decimal(n)
  }

  /** The number a string of decimal digits denotes. */
  function DigitsValue(s: string): nat
    requires forall i :: 0 <= i < |s| ==> IsDigit(s[i])
  {
    if s == [] then 0
    else
      assert IsDigit(s[|s| - 1]);
      DigitsValue(s[..|s| - 1]) * 10 + (s[|s| - 1] as int - '0' as int)
  }

  /**
   * The array index a property key denotes: a canonical decimal numeral, that is,
   * digits only and no leading zero unless the numeral is "0" itself.
   */
  function ArrayIndex(k: string): Option<nat> {
    if k != [] && (forall i :: 0 <= i < |k| ==> IsDigit(k[i])) && (k[0] != '0' || |k| == 1)
    then Some(DigitsValue(k))
    else None
  }

  /** Every index's own decimal numeral is read back as that index. */
  lemma {:induction false} ArrayIndexOfDecimal(n: nat)
    ensures ArrayIndex(Decimal(n)) == Some(n)
  {
    DigitsOfDecimal(n);
  }

  lemma {:induction false} DigitsOfDecimal(n: nat)
    ensures DigitsValue(Decimal(n)) == n
    decreases n
  {
    var s := Decimal(n);
    if n >= 10 {
      assert s[..|s| - 1] == Decimal(n / 10);
      DigitsOfDecimal(n / 10);
    }
  }

  /** The property key `String(v)` that `obj[v]` uses for a value `v`. */
  function ToKey(v: Value): string
    decreases v
  {
    match v
    case Undefined => "undefined"
    case Null => "null"
    case Bool(b) => if b then "true" else "false"
    case Num(n) => IntToString(n)
    case Str(s) => s
    case Arr(items) => JoinedElements(items)
    case Obj(_) => "[object Object]"
  }

  /** `items.join(",")`, where undefined and null elements contribute the empty string. */
  function JoinedElements(items: seq<Value>): string
    decreases items
  {
    if items == [] then ""
    else
      var head := if items[0].Undefined? || items[0].Null? then "" else ToKey(items[0]);
      if |items| == 1 then head else head + "," + JoinedElements(items[1..])
  }

  /**
   * `v[k]` for a property key `k`: None when the read raises a TypeError (reading a
   * property of undefined or null). Objects answer with their own fields, arrays and
   * strings with their elements and their length; anything else reads as undefined.
   */
  function GetProperty(v: Value, k: string): Option<Value> {
    match v
    case Undefined => None
    case Null => None
    case Bool(_) => Some(Undefined)
    case Num(_) => Some(Undefined)
    case Str(s) =>
      if k == "length" then Some(Num(|s|))
      else (match ArrayIndex(k)
            case Some(i) => if i < |s| then Some(Str([s[i]])) else Some(Undefined)
            case None => Some(Undefined))
    case Arr(items) =>
      if k == "length" then Some(Num(|items|))
      else (match ArrayIndex(k)
            case Some(i) => if i < |items| then Some(items[i]) else Some(Undefined)
            case None => Some(Undefined))
    case Obj(fields) => Some(if k in fields then fields[k] else Undefined)
  }

  /** Reading fails exactly on undefined and null; an object yields its field or undefined. */
  lemma GetPropertyFails(v: Value, k: string)
    ensures GetProperty(v, k).None? <==> v.Undefined? || v.Null?
    ensures v.Obj? ==> GetProperty(v, k) == Some(if k in v.fields then v.fields[k] else Undefined)
  {
  }

  /** `items[i]` through the key `String(i)` yields the i-th element. */
  lemma ArrayElement(items: seq<Value>, i: nat)
    requires i < |items|
    ensures GetProperty(Arr(items), ToKey(Num(i))) == Some(items[i])
  {
    ArrayIndexOfDecimal(i);
    assert Decimal(i) != "length";
  }

  /** `{...v}` for a plain object: a new object with the same own fields. */
  function ShallowCopy(v: Value): (c: Value)
    requires IsPlainObject(v)
    ensures c == v
  {
    Obj(map k | k in v.fields :: v.fields[k])
  }
}
