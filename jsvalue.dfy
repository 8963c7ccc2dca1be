/**
 * The values `JSON.parse` produces, plus `undefined` for a property that is not
 * there, and the JavaScript coercions the loader applies to them: `Number(v)`,
 * `String(v)`, truthiness and property access. Numbers are integers.
 */
module JsValue {
  import opened Wrappers
  import Strings

  datatype Value =
    | Undefined
    | Null
    | Bool(b: bool)
    | Num(n: int)
    | Str(s: string)
    | Arr(items: seq<Value>)
    | Obj(fields: map<string, Value>)

  /** `null` or `undefined`: reading a property of such a value throws a TypeError. */
  predicate Nullish(v: Value) {
    v.Undefined? || v.Null?
  }

  /** `v.key` on a value that is not nullish: `undefined` unless `v` is an object holding `key`. */
  function Get(v: Value, key: string): Value {
    if v.Obj? && key in v.fields then v.fields[key] else Undefined
  }

  /** `Boolean(v)`: the falsy values are `undefined`, `null`, `false`, `0` and `""`. */
  predicate Truthy(v: Value) {
    match v
    case Undefined => false
    case Null => false
    case Bool(b) => b
    case Num(n) => n != 0
    case Str(s) => s != ""
    case Arr(_) => true
    case Obj(_) => true
  }

  // ---------------------------------------------------------------- Number(v)

  /** The value of a run of decimal digits. */
  predicate AllDigits(ds: string) {
    forall i :: 0 <= i < |ds| ==> Strings.IsDigit(ds[i])
  }

  function DigitsValue(ds: string): (r: nat)
    requires AllDigits(ds)
    decreases |ds|
  {
    if ds == [] then 0
    else
      var last := ds[|ds| - 1];
      assert Strings.IsDigit(last);
      DigitsValue(ds[..|ds| - 1]) * 10 + (last as int - '0' as int)
  }

  /** An optionally signed run of decimal digits, or None (NaN) for anything else. */
  function ParseDecimal(t: string): (r: Option<int>)
    ensures r.Some? ==> t != []
  {
    if t != [] && (t[0] == '-' || t[0] == '+') then
      var ds := t[1..];
      if ds != [] && AllDigits(ds) then
        var v: int := DigitsValue(ds);
        Some(if t[0] == '-' then -v else v)
      else None
    else if t != [] && AllDigits(t) then Some(DigitsValue(t))
    else None
  }

  /**
   * `Number(s)` for a string: blank text is 0, a trimmed signed decimal integer
   * is its value, anything else is NaN (None).
   */
  function StrToNumber(s: string): Option<int> {
    var t := Strings.Trim(s);
    if t == [] then Some(0) else ParseDecimal(t)
  }

  /**
   * `Number(v)`, None standing for NaN: `undefined` is NaN, `null` is 0, a
   * boolean is 0 or 1, and arrays and objects go through their `String(v)`.
   */
  function ToNumber(v: Value): Option<int> {
    match v
    case Undefined => None
    case Null => Some(0)
    case Bool(b) => Some(if b then 1 else 0)
    case Num(n) => Some(n)
    case Str(s) => StrToNumber(s)
    case Arr(_) => StrToNumber(ToStr(v))
    case Obj(_) => StrToNumber(ToStr(v))
  }

  /** `Number.isFinite(Number(v)) ? Number(v) : d`. */
  function NumberOr(v: Value, d: int): int {
    match ToNumber(v)
    case Some(n) => n
    case None => d
  }

  /** A number reads as itself. */
  lemma NumberOfNum(n: int, d: int)
    ensures NumberOr(Num(n), d) == n
  {
  }

  // ---------------------------------------------------------------- String(v)

  /** `String(v)`; an array joins its elements' strings with ",", nullish elements as "". */
  function ToStr(v: Value): string
    decreases v
  {
    match v
    case Undefined => "undefined"
    case Null => "null"
    case Bool(b) => if b then "true" else "false"
    case Num(n) => Strings.IntToString(n)
    case Str(s) => s
    case Arr(items) => Strings.Join(seq(|items|, i requires 0 <= i < |items| =>
                                      if Nullish(items[i]) then "" else ToStr(items[i])), ",")
    case Obj(_) => "[object Object]"
  }

  /** `String(v || "")`: every falsy value becomes the empty string. */
  function OrEmptyString(v: Value): (r: string)
    ensures !Truthy(v) ==> r == ""
    ensures v.Str? ==> r == v.s
  {
    if Truthy(v) then ToStr(v) else ""
  }

  // ---------------------------------------------------------------- properties

  lemma DigitValue(d: nat)
    requires d < 10
    ensures Strings.Digit(d) as int - '0' as int == d
  {
    if d == 0 {} else if d == 1 {} else if d == 2 {} else if d == 3 {} else if d == 4 {}
    else if d == 5 {} else if d == 6 {} else if d == 7 {} else if d == 8 {} else {}
  }

  /** Reading back the decimal digits of a natural number gives the number. */
  lemma {:induction false} DigitsOfNat(n: nat)
    ensures AllDigits(Strings.NatToString(n)) && DigitsValue(Strings.NatToString(n)) == n
  {
    var s := Strings.NatToString(n);
    if n < 10 {
      DigitValue(n);
      assert s[..0] == [];
    } else {
      DigitsOfNat(n / 10);
      DigitValue(n % 10);
      assert s[..|s| - 1] == Strings.NatToString(n / 10);
    }
  }

  /** An integer's rendering has no whitespace at either end. */
  lemma IntToStringTrimmed(n: int)
    ensures Strings.IsTrimmed(Strings.IntToString(n))
  {
    var s := Strings.IntToString(n);
    var ds := Strings.NatToString(if n < 0 then -n else n);
    assert s[|s| - 1] == ds[|ds| - 1];
    assert Strings.IsDigit(ds[|ds| - 1]) && Strings.IsDigit(ds[0]);
  }

  lemma ParseSigned(ds: string, v: int)
    requires ds != [] && AllDigits(ds) && DigitsValue(ds) == v
    ensures ParseDecimal("-" + ds) == Some(-v)
  {
    assert ("-" + ds)[1..] == ds;
  }

  lemma ParseUnsigned(ds: string, v: int)
    requires ds != [] && AllDigits(ds) && DigitsValue(ds) == v
    ensures ParseDecimal(ds) == Some(v)
  {
    assert Strings.IsDigit(ds[0]);
  }

  lemma NegativeParses(n: int)
    requires n < 0
    ensures ParseDecimal(Strings.IntToString(n)) == Some(n)
  {
    DigitsOfNat(-n);
    ParseSigned(Strings.NatToString(-n), -n);
  }

  lemma NonNegativeParses(n: nat)
    ensures ParseDecimal(Strings.IntToString(n)) == Some(n)
  {
    DigitsOfNat(n);
    ParseUnsigned(Strings.NatToString(n), n);
  }

  lemma IntParses(n: int)
    ensures ParseDecimal(Strings.IntToString(n)) == Some(n)
  {
    if n < 0 {
      NegativeParses(n);
    } else {
      NonNegativeParses(n);
    }
  }

  lemma IntStrIsParsed(s: string)
    requires Strings.IsTrimmed(s) && s != []
    ensures StrToNumber(s) == ParseDecimal(s)
  {
    Strings.TrimmedIsFixed(s);
  }

  /** `Number(String(n)) === n` for every integer: the two coercions are inverse. */
  lemma StrToNumberOfInt(n: int)
    ensures StrToNumber(Strings.IntToString(n)) == Some(n)
  {
    IntToStringTrimmed(n);
    IntStrIsParsed(Strings.IntToString(n));
    IntParses(n);
  }

  /** Only `undefined` and non-numeric text become NaN among the primitive values. */
  lemma ToNumberOfPrimitive(v: Value)
    requires !v.Arr? && !v.Obj?
    ensures ToNumber(v).None? <==> v.Undefined? || (v.Str? && StrToNumber(v.s).None?)
  {
  }

  /** Text that holds a letter other than a sign or digit is NaN, once trimmed. */
  lemma {:induction false} StrToNumberNonDigit(s: string, k: int)
    requires 0 <= k < |Strings.Trim(s)| && !Strings.IsDigit(Strings.Trim(s)[k])
    requires k > 0 || (Strings.Trim(s)[0] != '-' && Strings.Trim(s)[0] != '+')
    ensures StrToNumber(s) == None
  {
    var t := Strings.Trim(s);
    if t[0] == '-' || t[0] == '+' {
      assert t[1..][k - 1] == t[k];
    }
  }
}
