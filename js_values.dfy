/**
 * The JavaScript values that reach the core's truthiness and length tests: parsed JSON request
 * bodies, the `data` of a remote role check, and the values looked up in them. `undefined`
 * stands for a missing property. JSON numbers are finite, so a `JNum` holds a real. Values
 * parsed from JSON have no methods of their own: a property named `toString` or `valueOf` is
 * data, never a function.
 */
module JsValues {
  import opened Wrappers
  import opened JsText

  datatype JsValue =
    | JUndefined
    | JNull
    | JBool(b: bool)
    | JNum(n: real)
    | JStr(s: string)
    | JArr(items: seq<JsValue>)
    | JObj(fields: map<string, JsValue>)

  /** JavaScript's ToBoolean: `undefined`, `null`, `false`, `0` and `""` are falsy, everything else truthy. */
  predicate Truthy(v: JsValue) {
    match v
    case JUndefined => false
    case JNull => false
    case JBool(b) => b
    case JNum(n) => n != 0.0
    case JStr(s) => s != []
    case JArr(_) => true
    case JObj(_) => true
  }

  /** Property lookup `v[key]` on a destructured JSON value: only objects have named own properties. */
  function Get(v: JsValue, key: string): JsValue {
    if v.JObj? && key in v.fields then v.fields[key] else JUndefined
  }

  // ---------------------------------------------------------------------------
  // Conversion to a number (ECMAScript ToNumber and StringToNumber)
  // ---------------------------------------------------------------------------

  /** A JavaScript number as far as a comparison needs it. Finite values are exact reals: the
      rounding of a decimal string to the nearest double is not modelled. */
  datatype Numeric = Finite(r: real) | PlusInfinity | MinusInfinity | NaN

  /** The result of a conversion: a number, or the `TypeError` thrown when an object has no
      primitive form. */
  datatype Conversion = Number(n: Numeric) | ConversionThrows

  /** The value of a digit in bases up to 16; 16 for anything that is not a digit. */
  function DigitValue(c: char): (d: nat)
    ensures d <= 16
  {
    if '0' <= c <= '9' then c as int - '0' as int
    else if 'a' <= c <= 'f' then c as int - 'a' as int + 10
    else if 'A' <= c <= 'F' then c as int - 'A' as int + 10
    else 16
  }

  predicate AllDigits(s: string, base: nat) {
    forall i :: 0 <= i < |s| ==> DigitValue(s[i]) < base
  }

  /** The number the digits `s` denote in `base`, most significant first. */
  function DigitsValue(s: string, base: nat): nat {
    if s == [] then 0 else DigitsValue(s[..|s| - 1], base) * base + DigitValue(s[|s| - 1])
  }

  function Pow10(e: nat): (p: real)
    ensures p >= 1.0
  {
    if e == 0 then 1.0 else 10.0 * Pow10(e - 1)
  }

  /** SignedInteger of an ExponentPart: an optional sign and at least one decimal digit. */
  function Exponent(x: string): Option<int> {
    var (negative, digits) :=
      if x != [] && (x[0] == '+' || x[0] == '-') then (x[0] == '-', x[1..]) else (false, x);
    if digits == [] || !AllDigits(digits, 10) then None
    else Some(if negative then -(DigitsValue(digits, 10) as int) else DigitsValue(digits, 10) as int)
  }

  /** Where the ExponentPart of a decimal literal starts: the first `e` or `E`, or the end. */
  function ExponentStart(u: string): (e: nat)
    ensures e <= |u|
  {
    if IndexOf(u, 'e') <= IndexOf(u, 'E') then IndexOf(u, 'e') else IndexOf(u, 'E')
  }

  /** The digits before an ExponentPart: digits with an optional fraction, and at least one
      digit in all. */
  function Mantissa(m: string): Option<real> {
    var p := IndexOf(m, '.');
    var whole := m[..p];
    var fraction := if p < |m| then m[p + 1..] else [];
    if whole + fraction == [] || !AllDigits(whole, 10) || !AllDigits(fraction, 10) then None
    else Some(DigitsValue(whole, 10) as real + DigitsValue(fraction, 10) as real / Pow10(|fraction|))
  }

  /** StrUnsignedDecimalLiteral: `Infinity`, or a mantissa with an optional exponent. Anything
      else is NaN. */
  function UnsignedDecimal(u: string): Numeric {
    if u == "Infinity" then PlusInfinity
    else
      var e := ExponentStart(u);
      match Mantissa(u[..e])
      case None => NaN
      case Some(m) =>
        if e == |u| then Finite(m)
        else match Exponent(u[e + 1..])
          case None => NaN
          case Some(x) => Finite(if x >= 0 then m * Pow10(x) else m / Pow10(-x))
  }

  function Negate(n: Numeric): Numeric {
    match n
    case Finite(r) => Finite(-r)
    case PlusInfinity => MinusInfinity
    case MinusInfinity => PlusInfinity
    case NaN => NaN
  }

  /** NonDecimalIntegerLiteral without its prefix: at least one digit of the base. */
  function NonDecimal(digits: string, base: nat): Numeric {
    if digits != [] && AllDigits(digits, base) then Finite(DigitsValue(digits, base) as real) else NaN
  }

  /** StringToNumber: white space around the literal is ignored and the empty string is 0; a
      literal is decimal with an optional sign, or hexadecimal, octal or binary after `0x`, `0o`
      or `0b` (either case) and without a sign; anything else is NaN. */
  function StringToNumber(s: string): Numeric {
    var t := Trim(s);
    if t == [] then Finite(0.0)
    else if |t| >= 2 && t[0] == '0' && (t[1] == 'x' || t[1] == 'X') then NonDecimal(t[2..], 16)
    else if |t| >= 2 && t[0] == '0' && (t[1] == 'o' || t[1] == 'O') then NonDecimal(t[2..], 8)
    else if |t| >= 2 && t[0] == '0' && (t[1] == 'b' || t[1] == 'B') then NonDecimal(t[2..], 2)
    else if t[0] == '+' then UnsignedDecimal(t[1..])
    else if t[0] == '-' then Negate(UnsignedDecimal(t[1..]))
    else UnsignedDecimal(t)
  }

  /** Whether producing the string form of `v` throws. A plain object with an own `toString`
      property cannot be converted (that property is not a function, and `valueOf` gives the
      object back), and an array converts its elements in order. */
  predicate StringFormThrows(v: JsValue)
    decreases v
  {
    match v
    case JObj(fields) => "toString" in fields
    case JArr(items) => exists i :: 0 <= i < |items| && StringFormThrows(items[i])
    case _ => false
  }

  /**
   * `Number(String(a))` for an array whose string form does not throw. The string form joins
   * the elements' string forms with commas, writing `null` and `undefined` as nothing, so the
   * empty array gives 0, two or more elements give a comma and so NaN, and a single element
   * gives the number of its own string form (a number's string form reads back as the same
   * number).
   */
  function ArrayNumber(v: JsValue): Numeric
    requires v.JArr?
    decreases v
  {
    if |v.items| == 0 then Finite(0.0)
    else if |v.items| > 1 then NaN
    else
      var x := v.items[0];
      match x
      case JUndefined => Finite(0.0)
      case JNull => Finite(0.0)
      case JBool(_) => NaN
      case JNum(n) => Finite(n)
      case JStr(s) => StringToNumber(s)
      case JArr(_) => ArrayNumber(x)
      case JObj(_) => NaN
  }

  /** ToNumber. An object is first asked for its primitive form: a plain object gives the text
      `[object Object]`, which is NaN, and an array gives its string form. */
  function ToNumber(v: JsValue): Conversion {
    match v
    case JUndefined => Number(NaN)
    case JNull => Number(Finite(0.0))
    case JBool(b) => Number(Finite(if b then 1.0 else 0.0))
    case JNum(n) => Number(Finite(n))
    case JStr(s) => Number(StringToNumber(s))
    case JArr(_) => if StringFormThrows(v) then ConversionThrows else Number(ArrayNumber(v))
    case JObj(fields) => if "toString" in fields then ConversionThrows else Number(NaN)
  }

  /** `n < bound`: false for NaN and for positive infinity. */
  predicate Below(n: Numeric, bound: real) {
    match n
    case Finite(r) => r < bound
    case MinusInfinity => true
    case PlusInfinity => false
    case NaN => false
  }

  /** The outcome of evaluating a comparison: its truth value, or the exception it throws. */
  datatype Comparison = Compared(holds: bool) | ComparisonThrows

  /**
   * `x.length < bound`. A string compares its number of UTF-16 code units and an array its
   * number of elements. An object compares its `length` property after ToNumber, and without
   * one compares `undefined`, which is NaN. Numbers and booleans have no `length`, so they
   * compare `undefined` too. Reading a property of `null` or `undefined` throws.
   */
  function LengthBelow(v: JsValue, bound: nat): (c: Comparison)
    ensures c.ComparisonThrows? <==>
      v.JNull? || v.JUndefined? || (v.JObj? && "length" in v.fields && ToNumber(v.fields["length"]).ConversionThrows?)
  {
    match v
    case JUndefined => ComparisonThrows
    case JNull => ComparisonThrows
    case JStr(s) => Compared(JsLength(s) < bound)
    case JArr(items) => Compared(|items| < bound)
    case JObj(fields) =>
      if "length" !in fields then Compared(false)
      else (match ToNumber(fields["length"])
            case Number(n) => Compared(Below(n, bound as real))
            case ConversionThrows => ComparisonThrows)
    case _ => Compared(false)
  }

  // ---------------------------------------------------------------------------
  // Properties of the conversion
  // ---------------------------------------------------------------------------

  /** No character that is not a decimal digit occurs among decimal digits. */
  lemma DigitsAvoid(s: string, c: char)
    requires AllDigits(s, 10) && DigitValue(c) >= 10
    ensures IndexOf(s, c) == |s|
  {
    forall i | 0 <= i < |s| ensures s[i] != c {
      assert DigitValue(s[i]) < 10;
    }
    NoSeparator(s, c);
  }

  lemma MantissaDigits(s: string)
    requires s != [] && AllDigits(s, 10)
    ensures Mantissa(s) == Some(DigitsValue(s, 10) as real)
  {
    DigitsAvoid(s, '.');
    assert s[..|s|] == s;
    assert s + [] == s;
  }

  /** A string of decimal digits converts to the number it denotes. */
  lemma DecimalDigitsNumber(s: string)
    requires s != [] && AllDigits(s, 10)
    ensures StringToNumber(s) == Finite(DigitsValue(s, 10) as real)
  {
    assert DigitValue(s[0]) < 10 && DigitValue(s[|s| - 1]) < 10;
    TrimFixed(s);
    DigitsAvoid(s, 'e');
    DigitsAvoid(s, 'E');
    assert ExponentStart(s) == |s|;
    assert s[..|s|] == s;
    MantissaDigits(s);
    if |s| >= 2 {
      assert DigitValue(s[1]) < 10;
    }
    assert s != "Infinity" by { assert "Infinity"[0] == 'I'; }
    assert UnsignedDecimal(s) == Finite(DigitsValue(s, 10) as real);
  }

  /** A `length` that is a string is converted before the comparison: a short decimal string
      and the empty string are below 6, a longer number is not. */
  lemma StringLengthConverted()
    ensures LengthBelow(JObj(map["length" := JStr("3")]), 6) == Compared(true)
    ensures LengthBelow(JObj(map["length" := JStr("")]), 6) == Compared(true)
    ensures LengthBelow(JObj(map["length" := JStr("10")]), 6) == Compared(false)
  {
    DecimalDigitsNumber("3");
    DecimalDigitsNumber("10");
    assert DigitsValue("10", 10) == 10 by { assert "10"[..1] == "1"; }
  }

  /** A `length` that is an array is converted through its string form: the empty array is 0
      and a one-element array is its element. */
  lemma ArrayLengthConverted()
    ensures LengthBelow(JObj(map["length" := JArr([])]), 6) == Compared(true)
    ensures LengthBelow(JObj(map["length" := JArr([JNum(5.0)])]), 6) == Compared(true)
    ensures LengthBelow(JObj(map["length" := JArr([JNum(5.0), JNum(5.0)])]), 6) == Compared(false)
  {
    var a := JArr([JNum(5.0)]);
    assert !StringFormThrows(a) by { assert !StringFormThrows(a.items[0]); }
    var b := JArr([JNum(5.0), JNum(5.0)]);
    assert !StringFormThrows(b) by { assert !StringFormThrows(b.items[0]) && !StringFormThrows(b.items[1]); }
  }

  /** A `length` that is an object with its own `toString` cannot be converted, and the
      comparison throws. */
  lemma ObjectLengthThrows()
    ensures LengthBelow(JObj(map["length" := JObj(map["toString" := JNum(1.0)])]), 6) == ComparisonThrows
    ensures LengthBelow(JObj(map["length" := JObj(map[])]), 6) == Compared(false)
  {
  }

  /** A one-element array holding a number converts to that number, so a `length` of `[n]`
      compares `n` itself. */
  lemma SingletonArrayLength(n: real, bound: nat)
    ensures LengthBelow(JObj(map["length" := JArr([JNum(n)])]), bound) == Compared(n < bound as real)
  {
    var a := JArr([JNum(n)]);
    assert !StringFormThrows(a) by { assert !StringFormThrows(a.items[0]); }
  }

  /** A `length` that is an object with an own `toString` property makes the comparison throw,
      whatever else the object holds and whatever the bound. */
  lemma OwnToStringThrows(fields: map<string, JsValue>, bound: nat)
    requires "toString" in fields
    ensures LengthBelow(JObj(map["length" := JObj(fields)]), bound) == ComparisonThrows
  {
  }

  /** A string's length counts UTF-16 code units: three characters beyond the Basic
      Multilingual Plane are six code units, which is not below 6. */
  lemma StringLengthCountsCodeUnits()
    ensures LengthBelow(JStr("\U{1F600}\U{1F600}\U{1F600}"), 6) == Compared(false)
    ensures LengthBelow(JStr("abc"), 6) == Compared(true)
  {
  }

}
