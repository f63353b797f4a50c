/**
 * The JSON values a request body can carry, with the two JavaScript coercions the
 * intake handler applies to them: truthiness (`!v`, `v || d`, `v ?? d`) and
 * `String(v)`. JSON numbers are modelled as integers.
 */
module JsValue {
  import opened JsText

  /** `Undefined` is what reading an absent property gives; `Obj` is any plain object. */
  datatype Value = Undefined | Null | Bool(b: bool) | Num(n: int) | Str(s: string) | Arr(elems: seq<Value>) | Obj

  /** JavaScript truthiness: `undefined`, `null`, `false`, `0` and `""` are falsy; every array and object is truthy. */
  predicate Truthy(v: Value) {
    match v
    case Undefined => false
    case Null => false
    case Bool(b) => b
    case Num(n) => n != 0
    case Str(s) => s != []
    case Arr(_) => true
    case Obj => true
  }

  /** The left operand of `??` is replaced exactly when it is `null` or `undefined`. */
  predicate IsNullish(v: Value) {
    v.Undefined? || v.Null?
  }

  /** `Array.isArray(v) && v.length > 0`. */
  predicate IsNonEmptyArray(v: Value) {
    v.Arr? && |v.elems| > 0
  }

  function DigitChar(d: nat): (c: char)
    requires d < 10
    ensures '0' <= c <= '9'
  {
    ('0' as int + d) as char
  }

  /** Decimal digits of a natural number, most significant first. */
  function NatToDecimal(n: nat): (r: string)
    ensures r != []
    ensures forall i | 0 <= i < |r| :: '0' <= r[i] <= '9'
  {
    if n < 10 then [DigitChar(n)] else NatToDecimal(n / 10) + [DigitChar(n % 10)]
  }

  /** `String(n)` for an integer `n`. */
  function IntToString(n: int): (r: string)
    ensures r != [] && !IsSpace(r[0])
  {
    if n < 0 then "-" + NatToDecimal(-n) else NatToDecimal(n)
  }

  /** `String(v)`. An array is the comma-join of its elements, where `null` and `undefined` elements become "". */
  function ToJsString(v: Value): string
    decreases v
  {
    match v
    case Undefined => "undefined"
    case Null => "null"
    case Bool(b) => if b then "true" else "false"
    case Num(n) => IntToString(n)
    case Str(s) => s
    case Arr(elems) => JoinElements(elems, ",")
    case Obj => "[object Object]"
  }

  /** `elems.join(sep)` over JSON values: each element as `String` gives it, `null` and `undefined` as "". On strings joined with "," it is `JsText.Join` (`StrArrayToString`). */
  function JoinElements(elems: seq<Value>, sep: string): string
    decreases elems
  {
    if elems == [] then []
    else
      var first := if IsNullish(elems[0]) then "" else ToJsString(elems[0]);
      if |elems| == 1 then first else first + sep + JoinElements(elems[1..], sep)
  }

  /** An array of strings as the JSON body of a request carries it. */
  function StrArray(xs: seq<string>): (v: Value)
    ensures v.Arr? && |v.elems| == |xs|
    ensures forall i | 0 <= i < |xs| :: v.elems[i] == Str(xs[i])
  {
    Arr(seq(|xs|, i requires 0 <= i < |xs| => Str(xs[i])))
  }

  /** `String(["a", "b"])` is `"a,b"`: on an array of strings, `String` is `join(",")`. */
  lemma {:induction false} StrArrayToString(xs: seq<string>)
    ensures ToJsString(StrArray(xs)) == Join(xs, ",")
  {
    var e := StrArray(xs).elems;
    assert ToJsString(StrArray(xs)) == JoinElements(e, ",");
    if |xs| > 0 {
      assert !IsNullish(e[0]) && ToJsString(e[0]) == xs[0];
    }
    if |xs| > 1 {
      StrArrayToString(xs[1..]);
      assert e[1..] == StrArray(xs[1..]).elems;
      assert ToJsString(StrArray(xs[1..])) == JoinElements(e[1..], ",");
    }
  }
}
