/**
  The JavaScript values that flow through request bodies, the AI response
  envelope and the client's state, with the two language rules the application
  leans on: truthiness (`!x`, `x || y`) and conversion to a string (`String(x)`,
  template literals and `Array.prototype.join`).
  Numbers are unbounded integers here; NaN, fractions, infinities and the
  rounding of doubles beyond 2^53 do not occur in the model.
 */
module JsValues {
  import opened Text

  datatype JsValue =
    | Undefined
    | Null
    | Bool(b: bool)
    | Num(n: int)
    | Str(s: string)
    | Arr(items: seq<JsValue>)
    | Obj(props: map<string, JsValue>)

  /** The values `!x` treats as false: undefined, null, false, 0 and "". Arrays and
      objects are truthy even when empty. */
  predicate Truthy(v: JsValue) {
    match v
    case Undefined => false
    case Null => false
    case Bool(b) => b
    case Num(n) => n != 0
    case Str(s) => s != ""
    case Arr(_) => true
    case Obj(_) => true
  }

  /** undefined and null: the values whose property access throws. */
  predicate Nullish(v: JsValue) {
    v.Undefined? || v.Null?
  }

  /** `a || b`: the first operand when it is truthy, otherwise the second. */
  function Or(a: JsValue, b: JsValue): (r: JsValue)
  {
    if Truthy(a) then a else b
  }

  function DigitChar(d: nat): (c: char)
    requires d < 10
    ensures '0' <= c <= '9' && c as int - '0' as int == d
  {
    ('0' as int + d) as char
  }

  /** Decimal digits of a natural number, without leading zeros. */
  function NatToDecimal(n: nat): (r: string)
    ensures |r| >= 1
    ensures forall i :: 0 <= i < |r| ==> '0' <= r[i] <= '9'
    ensures |r| > 1 ==> r[0] != '0'
  {
    if n < 10 then [DigitChar(n)] else NatToDecimal(n / 10) + [DigitChar(n % 10)]
  }

  /** The number a string of decimal digits denotes; the partner of NatToDecimal. */
  function DecimalValue(s: string): nat
    requires forall i :: 0 <= i < |s| ==> '0' <= s[i] <= '9'
  {
    if |s| == 0 then 0
    else 10 * DecimalValue(s[..|s| - 1]) + (s[|s| - 1] as int - '0' as int)
  }

  /** Reading back the decimal form of a number gives the number. */
  lemma {:induction false} DecimalRoundTrip(n: nat)
    ensures DecimalValue(NatToDecimal(n)) == n
  {
    if n >= 10 {
      var r := NatToDecimal(n);
      assert r[..|r| - 1] == NatToDecimal(n / 10);
      DecimalRoundTrip(n / 10);
    }
  }

  /** `String(n)` for an integer of magnitude below 10^21; JavaScript writes larger
      numbers in exponent form ("1e+21"), which this model does not. */
  function IntToDecimal(n: int): string {
    if n < 0 then "-" + NatToDecimal(-n) else NatToDecimal(n)
  }

  /** `String(v)`, which is also what a template literal `${v}` inserts. An array
      converts to its elements joined with ",", undefined and null elements giving
      the empty string; a plain object converts to "[object Object]". */
  function ToJsString(v: JsValue): string
    decreases v, 1
  {
    match v
    case Undefined => "undefined"
    case Null => "null"
    case Bool(b) => if b then "true" else "false"
    case Num(n) => IntToDecimal(n)
    case Str(s) => s
    case Arr(items) => ArrayJoin(items, ",")
    case Obj(_) => "[object Object]"
  }

  /** `items.join(sep)`. */
  function ArrayJoin(items: seq<JsValue>, sep: string): (r: string)
    decreases Arr(items), 0
  {
    Join(seq(|items|, i requires 0 <= i < |items| =>
               if Nullish(items[i]) then "" else ToJsString(items[i])),
         sep)
  }

  /** An array of string values joins to the strings themselves joined. */
  lemma ArrayJoinOfStrings(strs: seq<string>, sep: string)
    ensures ArrayJoin(seq(|strs|, i requires 0 <= i < |strs| => Str(strs[i])), sep) == Join(strs, sep)
  {
    var items := seq(|strs|, i requires 0 <= i < |strs| => Str(strs[i]));
    var a := seq(|items|, i requires 0 <= i < |items| =>
                   if Nullish(items[i]) then "" else ToJsString(items[i]));
    assert a == strs;
  }

  /** Property lookup `v.key` (and `v?.key`) for the property names the application
      reads, none of which is inherited from a built-in prototype: an own property of
      an object, otherwise undefined. */
  function Member(v: JsValue, key: string): (r: JsValue)
  {
    match v
    case Obj(p) => if key in p then p[key] else Undefined
    case _ => Undefined
  }

  /** `v?.[0]`: the first element of an array, the first character of a string, the
      property "0" of an object, and undefined for anything else or when empty. */
  function First(v: JsValue): (r: JsValue)
  {
    match v
    case Arr(xs) => if |xs| > 0 then xs[0] else Undefined
    case Str(s) => if |s| > 0 then Str([s[0]]) else Undefined
    case Obj(p) => if "0" in p then p["0"] else Undefined
    case _ => Undefined
  }
}
