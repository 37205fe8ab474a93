/// JavaScript values as the two controllers see them (parsed JSON request
/// bodies and the records held in the stores), together with the parts of
/// the language's abstract operations that the controllers' comparisons rely
/// on: `==` (IsLooselyEqual), `===` (IsStrictlyEqual), `< 0`, ToString and
/// ToNumber, following sections 7.1 and 7.2 of ECMAScript 2023 for values
/// parsed from JSON. Numbers are exact decimals, not IEEE-754 doubles, and a
/// conversion that throws is a separate predicate (`Throws`): the converting
/// functions give the result of a conversion that does not throw.
module JsValues {

  datatype Option<T> = None | Some(value: T)

  /** A JavaScript value. A number is the exact decimal `m * 10^e` that a
      JSON number literal denotes. Arrays and objects are reference values:
      two of them are never the same reference in this model, because every
      request body is a fresh parse. */
  datatype Value =
    | Undefined
    | Null
    | Bool(b: bool)
    | Num(m: int, e: int)
    | Str(s: string)
    | Arr(items: seq<Value>)
    | Obj(fields: map<string, Value>)

  /** What ToNumber yields: a finite value, one of the infinities, or NaN. */
  datatype Number = Finite(r: real) | PosInfinity | NegInfinity | NaN

  predicate IsObject(v: Value) { v.Arr? || v.Obj? }

  predicate IsNullish(v: Value) { v.Undefined? || v.Null? }

  // ---------------------------------------------------------------------
  // Decimal numbers
  // ---------------------------------------------------------------------

  function Pow10(n: nat): (r: nat)
    ensures r >= 1
  {
    if n == 0 then 1 else 10 * Pow10(n - 1)
  }

  /** The real number `m * 10^e`. */
  function DecimalValue(m: int, e: int): (r: real) {
    if e >= 0 then (m * Pow10(e)) as real else m as real / Pow10(-e) as real
  }

  lemma ScaledSign(m: int, p: int)
    requires p >= 1
    ensures m * p == 0 <==> m == 0
    ensures m * p < 0 <==> m < 0
  {
    if m > 0 { assert m * p >= p; } else if m < 0 { assert m * p <= -p; }
  }

  lemma QuotientSign(m: int, q: real)
    requires q > 0.0
    ensures m as real / q == 0.0 <==> m == 0
    ensures m as real / q < 0.0 <==> m < 0
  {
    var r := m as real / q;
    assert r * q == m as real;
  }

  /** The decimal `m * 10^e` has the sign of `m`. */
  lemma DecimalValueSign(m: int, e: int)
    ensures DecimalValue(m, e) == 0.0 <==> m == 0
    ensures DecimalValue(m, e) < 0.0 <==> m < 0
  {
    if e >= 0 {
      ScaledSign(m, Pow10(e));
    } else {
      QuotientSign(m, Pow10(-e) as real);
    }
  }

  /** `Number.isInteger(v)`: a number whose value has no fractional part. */
  predicate IsInteger(v: Value) {
    v.Num? && (v.e >= 0 || v.m % Pow10(-v.e) == 0)
  }

  // ---------------------------------------------------------------------
  // Digits and strings
  // ---------------------------------------------------------------------

  predicate IsDecimalDigit(c: char) { '0' <= c <= '9' }

  predicate AllDigits(s: string) {
    forall i | 0 <= i < |s| :: IsDecimalDigit(s[i])
  }

  function DigitChar(d: nat): (r: char)
    requires d < 10
  {
    "0123456789"[d]
  }

  /** The decimal numeral of `n`, without leading zeros. */
  function NatToString(n: nat): (s: string)
    ensures |s| >= 1
    decreases n
  {
    if n < 10 then [DigitChar(n)] else NatToString(n / 10) + [DigitChar(n % 10)]
  }

  /** The value of a numeral written in decimal digits (0 for ""). */
  function DigitsValue(s: string): (r: nat)
    requires AllDigits(s)
  {
    if s == [] then 0
    else 10 * DigitsValue(s[..|s| - 1]) + (s[|s| - 1] as int - '0' as int)
  }

  /** Writing a natural number and reading it back gives the number. */
  lemma {:induction false} NatToStringRoundTrip(n: nat)
    ensures AllDigits(NatToString(n))
    ensures DigitsValue(NatToString(n)) == n
    decreases n
  {
    if n >= 10 {
      NatToStringRoundTrip(n / 10);
      var s := NatToString(n);
      var prefix := NatToString(n / 10);
      assert s == prefix + [DigitChar(n % 10)];
      assert s[..|s| - 1] == prefix;
    }
  }

  /** `parts.join(sep)`. */
  function Join(parts: seq<string>, sep: string): (r: string) {
    if |parts| == 0 then ""
    else if |parts| == 1 then parts[0]
    else parts[0] + sep + Join(parts[1..], sep)
  }

  /** A joined list starts with its first part. */
  lemma JoinStartsWithFirst(parts: seq<string>, sep: string)
    requires |parts| >= 1
    ensures |Join(parts, sep)| >= |parts[0]|
    ensures Join(parts, sep)[..|parts[0]|] == parts[0]
  {
    if |parts| > 1 {
      assert Join(parts, sep) == parts[0] + (sep + Join(parts[1..], sep));
    }
  }

  /** Joining with a non-empty separator gives "" exactly for the empty list
      and for a single empty part. */
  lemma JoinIsEmpty(parts: seq<string>, sep: string)
    requires sep != ""
    ensures Join(parts, sep) == "" <==> |parts| == 0 || (|parts| == 1 && parts[0] == "")
  {
    if |parts| > 1 {
      assert |Join(parts, sep)| >= |sep|;
    }
  }

  function Zeros(n: nat): (s: string)
    ensures |s| == n
  {
    seq(n, _ => '0')
  }

  /** Drops trailing zero digits of `m` into the exponent. */
  function Normalize(m: nat, e: int): (r: (nat, int))
    requires m > 0
    ensures r.0 > 0
    decreases m
  {
    if m % 10 == 0 then Normalize(m / 10, e + 1) else (m, e)
  }

  /** Number::toString for a positive decimal `m * 10^e` (section 6.1.6.1.20):
      `digits` are its significant digits and `n` the position of the
      decimal point relative to them. */
  function PositiveToString(m: nat, e: int): (s: string)
    requires m > 0
    ensures s != ""
  {
    var (d, x) := Normalize(m, e);
    var digits := NatToString(d);
    var k := |digits|;
    var n := x + k;
    if k <= n <= 21 then digits + Zeros(n - k)
    else if 0 < n <= 21 then digits[..n] + "." + digits[n..]
    else if -6 < n <= 0 then "0." + Zeros(-n) + digits
    else
      var exp := n - 1;
      var expPart := "e" + (if exp >= 0 then "+" else "-") + NatToString(if exp >= 0 then exp else -exp);
      if k == 1 then digits + expPart else digits[..1] + "." + digits[1..] + expPart
  }

  function NumberToString(m: int, e: int): (s: string)
    ensures s != ""
  {
    if m == 0 then "0"
    else if m < 0 then "-" + PositiveToString(-m, e)
    else PositiveToString(m, e)
  }

  /** ToString (section 7.1.17); an array converts through `join(",")`,
      which writes `null` and `undefined` elements as "". */
  function ToString(v: Value): (r: string)
    decreases v, 1
  {
    match v
    case Undefined => "undefined"
    case Null => "null"
    case Bool(b) => if b then "true" else "false"
    case Num(m, e) => NumberToString(m, e)
    case Str(s) => s
    case Arr(items) => Join(seq(|items|, i requires 0 <= i < |items| => ElementString(items[i])), ",")
    case Obj(_) => "[object Object]"
  }

  /** How `Array.prototype.join` writes one element. */
  function ElementString(v: Value): (r: string)
    decreases v, 2
  {
    if IsNullish(v) then "" else ToString(v)
  }

  /** An array converts to "" exactly when it is empty or its one element
      is written as "". */
  lemma ArrayToStringIsEmpty(items: seq<Value>)
    ensures ToString(Arr(items)) == "" <==> |items| == 0 || (|items| == 1 && ElementString(items[0]) == "")
  {
    var parts := seq(|items|, i requires 0 <= i < |items| => ElementString(items[i]));
    assert ToString(Arr(items)) == Join(parts, ",");
    JoinIsEmpty(parts, ",");
    if |items| == 1 {
      assert parts[0] == ElementString(items[0]);
    }
  }

  // ---------------------------------------------------------------------
  // StringToNumber (section 7.1.4.1.1)
  // ---------------------------------------------------------------------

  /** WhiteSpace and LineTerminator code points, which StringToNumber trims. */
  predicate IsJsSpace(c: char) {
    c == '\t' || c == '\n' || c == '\U{000B}' || c == '\U{000C}' || c == '\r' || c == ' '
    || c == '\U{00A0}' || c == '\U{1680}' || ('\U{2000}' <= c <= '\U{200A}')
    || c == '\U{2028}' || c == '\U{2029}' || c == '\U{202F}' || c == '\U{205F}'
    || c == '\U{3000}' || c == '\U{FEFF}'
  }

  function TrimStart(s: string): (r: string) {
    if s != [] && IsJsSpace(s[0]) then TrimStart(s[1..]) else s
  }

  function TrimEnd(s: string): (r: string) {
    if s != [] && IsJsSpace(s[|s| - 1]) then TrimEnd(s[..|s| - 1]) else s
  }

  function Trim(s: string): (r: string) {
    TrimEnd(TrimStart(s))
  }

  /** The first index of `c1` or `c2` in `s`. */
  function FindChar(s: string, c1: char, c2: char): (r: Option<nat>)
    ensures r.Some? ==> r.value < |s| && (s[r.value] == c1 || s[r.value] == c2)
    ensures r.None? ==> forall i | 0 <= i < |s| :: s[i] != c1 && s[i] != c2
  {
    if s == [] then None
    else if s[0] == c1 || s[0] == c2 then Some(0)
    else match FindChar(s[1..], c1, c2)
      case None => None
      case Some(k) => Some(k + 1)
  }

  /** An exponent after `e`: an optional sign and at least one digit. */
  function SignedDigits(s: string): (r: Option<int>) {
    if s != [] && (s[0] == '+' || s[0] == '-') then
      if |s| > 1 && AllDigits(s[1..]) then
        Some(if s[0] == '-' then -(DigitsValue(s[1..]) as int) else DigitsValue(s[1..]))
      else None
    else if s != [] && AllDigits(s) then Some(DigitsValue(s))
    else None
  }

  /** StrUnsignedDecimalLiteral without `Infinity`: digits with an optional
      fraction and an optional exponent. */
  function UnsignedDecimal(t: string): (r: Number) {
    var ePos := FindChar(t, 'e', 'E');
    var mantissa := if ePos.Some? then t[..ePos.value] else t;
    var exponent := if ePos.Some? then SignedDigits(t[ePos.value + 1..]) else Some(0);
    var dot := FindChar(mantissa, '.', '.');
    var whole := if dot.Some? then mantissa[..dot.value] else mantissa;
    var fraction := if dot.Some? then mantissa[dot.value + 1..] else "";
    if exponent.None? || !AllDigits(whole) || !AllDigits(fraction) || (whole == "" && fraction == "") then NaN
    else
      assert AllDigits(whole + fraction);
      Finite(DecimalValue(DigitsValue(whole + fraction), exponent.value - |fraction|))
  }

  /** The value of a hexadecimal digit, or -1. */
  function HexDigit(c: char): (r: int) {
    if '0' <= c <= '9' then c as int - '0' as int
    else if 'a' <= c <= 'f' then c as int - 'a' as int + 10
    else if 'A' <= c <= 'F' then c as int - 'A' as int + 10
    else -1
  }

  function RadixValue(ds: string, radix: nat): (r: Option<nat>) {
    if ds == [] then Some(0)
    else
      var d := HexDigit(ds[|ds| - 1]);
      var rest := RadixValue(ds[..|ds| - 1], radix);
      if 0 <= d < radix && rest.Some? then Some(rest.value * radix + d) else None
  }

  /** A `0x`, `0o` or `0b` literal after its prefix. */
  function RadixLiteral(ds: string, radix: nat): (r: Number) {
    var v := RadixValue(ds, radix);
    if ds != [] && v.Some? then Finite(v.value as real) else NaN
  }

  function Negate(n: Number): (r: Number) {
    match n
    case Finite(r) => Finite(-r)
    case PosInfinity => NegInfinity
    case NegInfinity => PosInfinity
    case NaN => NaN
  }

  function StringToNumber(s: string): (r: Number) {
    var t := Trim(s);
    if t == "" then Finite(0.0)
    else if t == "Infinity" || t == "+Infinity" then PosInfinity
    else if t == "-Infinity" then NegInfinity
    else if |t| > 2 && t[0] == '0' && (t[1] == 'x' || t[1] == 'X') then RadixLiteral(t[2..], 16)
    else if |t| > 2 && t[0] == '0' && (t[1] == 'o' || t[1] == 'O') then RadixLiteral(t[2..], 8)
    else if |t| > 2 && t[0] == '0' && (t[1] == 'b' || t[1] == 'B') then RadixLiteral(t[2..], 2)
    else if t[0] == '-' then Negate(UnsignedDecimal(t[1..]))
    else if t[0] == '+' then UnsignedDecimal(t[1..])
    else UnsignedDecimal(t)
  }

  /** A numeral of decimal digits has no white space to trim. */
  lemma TrimDigits(s: string)
    requires s != "" && AllDigits(s)
    ensures Trim(s) == s
  {
    assert IsDecimalDigit(s[0]) && IsDecimalDigit(s[|s| - 1]);
    assert TrimStart(s) == s;
  }

  /** A numeral of decimal digits is read as an integer with no fraction
      and no exponent. */
  lemma UnsignedDigits(s: string)
    requires s != "" && AllDigits(s)
    ensures UnsignedDecimal(s) == Finite(DigitsValue(s) as real)
  {
    var ePos := FindChar(s, 'e', 'E');
    assert ePos.None?;
    var dot := FindChar(s, '.', '.');
    assert dot.None?;
    assert s + "" == s;
  }

  /** A numeral of decimal digits converts to its value. */
  lemma DigitsToNumber(s: string)
    requires s != "" && AllDigits(s)
    ensures StringToNumber(s) == Finite(DigitsValue(s) as real)
  {
    TrimDigits(s);
    UnsignedDigits(s);
    assert IsDecimalDigit(s[0]);
    assert |s| > 2 ==> IsDecimalDigit(s[1]);
    assert s != "Infinity" && s != "+Infinity" && s != "-Infinity" by {
      assert "Infinity"[0] == 'I' && "+Infinity"[0] == '+' && "-Infinity"[0] == '-';
    }
  }

  // ---------------------------------------------------------------------
  // Conversions and comparisons
  // ---------------------------------------------------------------------

  /** The message V8 gives to the TypeError that ToPrimitive throws when an
      object has neither a callable `toString` nor a callable `valueOf`. */
  const ConversionError: string := "Cannot convert object to primitive value"

  /** ToPrimitive (section 7.1.1) throws on `v`. A parsed object inherits
      callable `toString` and `valueOf` from `Object.prototype`, but an own
      `toString` key shadows the first with a value that cannot be called,
      and `valueOf` returns the object itself, so nothing primitive is left.
      An array converts by joining its elements, converting every element
      that is not `null` or `undefined`, so it throws when one of those
      does. */
  predicate Throws(v: Value) {
    match v
    case Obj(fields) => "toString" in fields
    case Arr(items) => exists i | 0 <= i < |items| :: Throws(items[i])
    case _ => false
  }

  /** `x == y` converts an object compared with a string, a number or a
      boolean, and throws when that conversion does; two objects compare as
      references and a nullish operand compares without conversion. */
  predicate LooseEqThrows(x: Value, y: Value) {
    (Throws(x) && !IsObject(y) && !IsNullish(y))
    || (Throws(y) && !IsObject(x) && !IsNullish(x))
  }

  /** ToPrimitive: an array or object converts through its `toString`; the
      result is meaningful where `Throws(v)` does not hold. */
  function ToPrimitive(v: Value): (p: Value)
    ensures !IsObject(p)
    ensures !IsObject(v) ==> p == v
  {
    if IsObject(v) then Str(ToString(v)) else v
  }

  /** ToNumber (section 7.1.4). */
  function ToNumber(v: Value): (r: Number) {
    match v
    case Undefined => NaN
    case Null => Finite(0.0)
    case Bool(b) => Finite(if b then 1.0 else 0.0)
    case Num(m, e) => Finite(DecimalValue(m, e))
    case Str(s) => StringToNumber(s)
    case _ => StringToNumber(ToString(v))
  }

  /** Number::equal: NaN equals nothing. */
  predicate NumberEq(a: Number, b: Number) {
    match (a, b)
    case (Finite(x), Finite(y)) => x == y
    case (PosInfinity, PosInfinity) => true
    case (NegInfinity, NegInfinity) => true
    case _ => false
  }

  /** `x == y` (IsLooselyEqual, section 7.2.14). */
  predicate LooseEq(x: Value, y: Value) {
    if IsObject(x) && IsObject(y) then false
    else if IsNullish(x) || IsNullish(y) then IsNullish(x) && IsNullish(y)
    else
      var px, py := ToPrimitive(x), ToPrimitive(y);
      if px.Str? && py.Str? then px.s == py.s
      else NumberEq(ToNumber(px), ToNumber(py))
  }

  /** `x === y` (IsStrictlyEqual, section 7.2.15). */
  predicate StrictEq(x: Value, y: Value) {
    match (x, y)
    case (Undefined, Undefined) => true
    case (Null, Null) => true
    case (Bool(a), Bool(b)) => a == b
    case (Num(m1, e1), Num(m2, e2)) => DecimalValue(m1, e1) == DecimalValue(m2, e2)
    case (Str(a), Str(b)) => a == b
    case _ => false
  }

  /** `v === n` for the result `n` of `Number(...)`. */
  predicate StrictEqNumber(v: Value, n: Number) {
    v.Num? && n == Finite(DecimalValue(v.m, v.e))
  }

  /** `v < 0` (IsLessThan with a number on the right), which throws where
      `Throws(v)` holds. */
  predicate LessThanZero(v: Value) {
    match ToNumber(v)
    case Finite(r) => r < 0.0
    case NegInfinity => true
    case _ => false
  }

  /** `v == ""`, which throws where `Throws(v)` holds. */
  predicate LooseEqEmpty(v: Value) {
    LooseEq(v, Str(""))
  }

  lemma LooseEqSymmetric(x: Value, y: Value)
    ensures LooseEq(x, y) <==> LooseEq(y, x)
    ensures LooseEqThrows(x, y) <==> LooseEqThrows(y, x)
  {
  }

  /** Only arrays and objects can throw on conversion, so `v == ""` throws
      exactly where `v` does. */
  lemma ThrowsOnlyObjects(v: Value)
    ensures Throws(v) ==> IsObject(v)
    ensures LooseEqThrows(v, Str("")) <==> Throws(v)
  {
  }

  /** A string is compared to itself loosely as equal. */
  lemma LooseEqStrReflexive(s: string)
    ensures LooseEq(Str(s), Str(s))
  {
  }

  /** `v == ""` holds for "", for the number 0, for `false`, and for an array
      that joins to "" (`[]`, `[""]`, `[null]`, `[[]]`, ...), and for
      nothing else. */
  lemma LooseEqEmptyCases(v: Value)
    ensures LooseEqEmpty(v) <==>
      v == Str("") || (v.Num? && v.m == 0) || v == Bool(false)
      || (v.Arr? && (|v.items| == 0 || (|v.items| == 1 && ElementString(v.items[0]) == "")))
  {
    assert Trim("") == "";
    match v
    case Num(m, e) => DecimalValueSign(m, e);
    case Arr(items) => ArrayToStringIsEmpty(items);
    case _ =>
  }

  /** `n == 0` for a number compares values; `n < 0` compares signs. */
  lemma NumComparisons(m: int, e: int)
    ensures LooseEq(Num(m, e), Num(0, 0)) <==> m == 0
    ensures LessThanZero(Num(m, e)) <==> m < 0
  {
    DecimalValueSign(m, e);
    DecimalValueSign(0, 0);
  }

  /** A number equals, loosely, its own decimal numeral. */
  lemma NumEqualsItsNumeral(n: nat)
    ensures LooseEq(Num(n, 0), Str(NatToString(n)))
  {
    NatToStringRoundTrip(n);
    DigitsToNumber(NatToString(n));
  }
}
