/** The values a handler reads from a JSON request body, and the JavaScript
    conversions the handlers apply to them: truthiness (`!x`), `Number(x)`
    (which `isNaN(x)` tests), `parseFloat(x)`, `parseInt(x)`, and the integer
    the database stores when such a value is bound to an INT column. */
module Js {
  import opened Common
  import opened Text

  /** A JSON value as the handler receives it; a field the body does not
      have is Undefined. Arrays and objects are not modelled. */
  datatype Value = Undefined | Null | Bool(b: bool) | Num(n: real) | Str(s: string)

  /** JavaScript truthiness: undefined, null, false, 0 and "" are falsy;
      every other string, "0" among them, is truthy. */
  predicate Truthy(v: Value) {
    match v
    case Undefined => false
    case Null => false
    case Bool(b) => b
    case Num(n) => n != 0.0
    case Str(s) => s != ""
  }

  /** `v === n` for a number n: only the same number is strictly equal; the
      string "5" is not 5. */
  predicate SameNumber(v: Value, n: int) {
    v == Num(n as real)
  }

  // ------------------------------------------------------ reading numerals

  /** The value of a digit in any radix up to 36; 36 for a non-digit. */
  function DigitOf(c: char): (r: nat)
    ensures r <= 36
  {
    if '0' <= c <= '9' then c as int - '0' as int
    else if 'a' <= c <= 'z' then c as int - 'a' as int + 10
    else if 'A' <= c <= 'Z' then c as int - 'A' as int + 10
    else 36
  }

  /** The end of the run of digits of the radix that starts at i, reading no
      further than hi. */
  function DigitsEnd(s: string, i: nat, hi: nat, radix: nat): (r: nat)
    requires i <= hi <= |s|
    ensures i <= r <= hi
    ensures forall j :: i <= j < r ==> DigitOf(s[j]) < radix
    ensures r < hi ==> DigitOf(s[r]) >= radix
    decreases hi - i
  {
    if i < hi && DigitOf(s[i]) < radix then DigitsEnd(s, i + 1, hi, radix) else i
  }

  /** The number the digits s[i..j] spell in the radix. */
  function DigitsValue(s: string, i: nat, j: nat, radix: nat): nat
    requires i <= j <= |s|
    decreases j - i
  {
    if i == j then 0 else DigitsValue(s, i, j - 1, radix) * radix + DigitOf(s[j - 1])
  }

  function Pow10(k: nat): (r: nat)
    ensures r >= 1
  {
    if k == 0 then 1 else 10 * Pow10(k - 1)
  }

  /** A numeral read off a text: where the reading stopped and its value. */
  datatype Scan = NoNumber | Scanned(end: nat, value: real)

  /** The exponent `e[+-]digits` at m, as its end and its value; (m, 0) when
      there is none. */
  function ExponentAt(s: string, m: nat, hi: nat): (r: (nat, int))
    requires m <= hi <= |s|
    ensures m <= r.0 <= hi
  {
    if m < hi && (s[m] == 'e' || s[m] == 'E') then
      var k := if m + 1 < hi && (s[m + 1] == '+' || s[m + 1] == '-') then m + 2 else m + 1;
      var d := DigitsEnd(s, k, hi, 10);
      if d == k then (m, 0)
      else (d, if s[m + 1] == '-' then -(DigitsValue(s, k, d, 10) as int) else DigitsValue(s, k, d, 10))
    else (m, 0)
  }

  /** Past the sign at p, if there is one. */
  function SignEnd(s: string, p: nat, hi: nat): (r: nat)
    requires p <= hi <= |s|
    ensures p <= r <= hi
  {
    if p < hi && (s[p] == '+' || s[p] == '-') then p + 1 else p
  }

  /** Past the fraction `.digits` at a, if there is a point there. */
  function PointEnd(s: string, a: nat, hi: nat): (r: nat)
    requires a <= hi <= |s|
    ensures a <= r <= hi
  {
    if a < hi && s[a] == '.' then DigitsEnd(s, a + 1, hi, 10) else a
  }

  /** 10 to the power e, for an exponent of either sign. */
  function Scale(e: int): (r: real)
    ensures r > 0.0
  {
    if e >= 0 then Pow10(e) as real else 1.0 / Pow10(-e) as real
  }

  /** The longest decimal numeral of ECMAScript that starts at p and ends by
      hi: a sign, digits, a fraction, an exponent; at least one digit before
      or after the point. */
  function DecimalAt(s: string, p: nat, hi: nat): (r: Scan)
    requires p <= hi <= |s|
    ensures r.Scanned? ==> p < r.end <= hi
  {
    var q := SignEnd(s, p, hi);
    var a := DigitsEnd(s, q, hi, 10);
    var b := PointEnd(s, a, hi);
    if a == q && b <= a + 1 then NoNumber
    else
      var ex := ExponentAt(s, b, hi);
      Scanned(ex.0, NumeralValue(s, p, q, a, b, ex.1))
  }

  /** The value of a numeral whose sign is s[p..q], whose whole part is
      s[q..a], whose fraction (point included) is s[a..b] and whose exponent
      is e. */
  function NumeralValue(s: string, p: nat, q: nat, a: nat, b: nat, e: int): real
    requires p <= q <= a <= b <= |s|
  {
    var whole := DigitsValue(s, q, a, 10) as real;
    var frac := if b > a then DigitsValue(s, a + 1, b, 10) as real / Pow10(b - a - 1) as real else 0.0;
    var mag := (whole + frac) * Scale(e);
    if q > p && s[p] == '-' then -mag else mag
  }

  /** The first position at or after i that is not white space. */
  function SpaceEnd(s: string, i: nat): (r: nat)
    requires i <= |s|
    ensures i <= r <= |s|
    ensures forall j :: i <= j < r ==> IsSpace(s[j])
    ensures r < |s| ==> !IsSpace(s[r])
    decreases |s| - i
  {
    if i < |s| && IsSpace(s[i]) then SpaceEnd(s, i + 1) else i
  }

  /** Where the white space that ends s[..j] begins, and no earlier than lo. */
  function SpaceStart(s: string, lo: nat, j: nat): (r: nat)
    requires lo <= j <= |s|
    ensures lo <= r <= j
    ensures forall k :: r <= k < j ==> IsSpace(s[k])
    ensures r > lo ==> !IsSpace(s[r - 1])
    decreases j
  {
    if j > lo && IsSpace(s[j - 1]) then SpaceStart(s, lo, j - 1) else j
  }

  /** The radix a `0x`, `0o` or `0b` prefix announces; 0 for any other letter. */
  function Radix(c: char): nat {
    if c == 'x' || c == 'X' then 16
    else if c == 'o' || c == 'O' then 8
    else if c == 'b' || c == 'B' then 2
    else 0
  }

  /** s[lo..hi] starts with `0x`, `0o` or `0b`. */
  predicate Prefixed(s: string, lo: nat, hi: nat)
    requires lo <= hi <= |s|
  {
    hi - lo >= 2 && s[lo] == '0' && Radix(s[lo + 1]) > 0
  }

  /** `Number(s)` for a string: the text less its surrounding white space is
      empty (0), a numeral with a radix prefix, or a decimal numeral; any
      other text is NaN (None). */
  function StringToNumber(s: string): Option<real> {
    var lo := SpaceEnd(s, 0);
    var hi := SpaceStart(s, lo, |s|);
    if lo == hi then Some(0.0)
    else if Prefixed(s, lo, hi) then
      var radix := Radix(s[lo + 1]);
      if hi > lo + 2 && DigitsEnd(s, lo + 2, hi, radix) == hi
      then Some(DigitsValue(s, lo + 2, hi, radix) as real) else None
    else match DecimalAt(s, lo, hi)
      case Scanned(e, x) => if e == hi then Some(x) else None
      case NoNumber => None
  }

  // ------------------------------------------------------------ conversions

  /** `Number(v)`; None is NaN, so `isNaN(v)` is `ToNumber(v).None?`. */
  function ToNumber(v: Value): (r: Option<real>)
    ensures v.Num? ==> r == Some(v.n)
    ensures v.Null? || v == Str("") ==> r == Some(0.0)
    ensures v.Undefined? ==> r.None?
  {
    match v
    case Undefined => None
    case Null => Some(0.0)
    case Bool(b) => Some(if b then 1.0 else 0.0)
    case Num(n) => Some(n)
    case Str(s) => StringToNumber(s)
  }

  predicate IsNaN(v: Value) {
    ToNumber(v).None?
  }

  /** `parseFloat(v)`: the longest decimal numeral at the front of the text
      after its leading white space; NaN (None) when there is none. A number
      reads back as itself; undefined, null and booleans spell no numeral. */
  function ParseFloat(v: Value): (r: Option<real>)
    ensures v.Num? ==> r == Some(v.n)
    ensures !v.Num? && !v.Str? ==> r.None?
  {
    match v
    case Num(n) => Some(n)
    case Str(s) => StringToFloat(s)
    case _ => None
  }

  /** `parseFloat(s)` for a string. */
  function StringToFloat(s: string): Option<real> {
    match DecimalAt(s, SpaceEnd(s, 0), |s|)
    case Scanned(_, x) => Some(x)
    case NoNumber => None
  }

  /** `parseFloat(v) <= 0` and `parseFloat(v) < 0`: a comparison with NaN is false. */
  predicate FloatAtMost(v: Value, bound: real) {
    ParseFloat(v).Some? && ParseFloat(v).value <= bound
  }

  predicate FloatBelow(v: Value, bound: real) {
    ParseFloat(v).Some? && ParseFloat(v).value < bound
  }

  /** The integer part of a real, rounded toward zero. */
  function Truncate(x: real): int {
    if x >= 0.0 then x.Floor else -((-x).Floor)
  }

  /** `parseInt(s)` (hexOk) or `parseInt(s, 10)`: white space, a sign, then
      the longest run of digits; with no radix a `0x` prefix reads hex. */
  function StringToInt(s: string, hexOk: bool): Parsed {
    var lo := SpaceEnd(s, 0);
    var neg := lo < |s| && s[lo] == '-';
    var q := if lo < |s| && (s[lo] == '-' || s[lo] == '+') then lo + 1 else lo;
    var hex := hexOk && q + 1 < |s| && s[q] == '0' && (s[q + 1] == 'x' || s[q + 1] == 'X');
    var start := if hex then q + 2 else q;
    var radix := if hex then 16 else 10;
    var e := DigitsEnd(s, start, |s|, radix);
    if e == start then NaN
    else Int(if neg then -(DigitsValue(s, start, e, radix) as int) else DigitsValue(s, start, e, radix))
  }

  /** The magnitudes `String(n)` writes in plain decimal form: 0, and from
      1e-6 up to but not including 1e21. Outside them it writes an exponent
      form such as "1e-7" or "1.5e+21". */
  predicate PlainForm(n: real) {
    n == 0.0 || (0.000001 <= n < 1_000_000_000_000_000_000_000.0)
             || (-1_000_000_000_000_000_000_000.0 < n <= -0.000001)
  }

  /** The first digit of a positive whole number. */
  function LeadingDigit(x: nat): (d: nat)
    requires x > 0
    ensures 1 <= d <= 9
    decreases x
  {
    if x < 10 then x else LeadingDigit(x / 10)
  }

  /** The first digit of the decimal expansion of a positive number: the
      one `String(x)` writes before the point of its exponent form. */
  function SignificantDigit(x: real): (d: nat)
    requires x > 0.0
    ensures 1 <= d <= 9
    decreases if x < 1.0 then (1.0 / x).Floor else 0
  {
    if x >= 1.0 then LeadingDigit(x.Floor)
    else
      TenfoldCloser(x);
      SignificantDigit(10.0 * x)
  }

  /** Scaling a number below 1 by ten brings it closer to 1. */
  lemma TenfoldCloser(x: real)
    requires 0.0 < x < 1.0
    ensures (if 10.0 * x < 1.0 then (1.0 / (10.0 * x)).Floor else 0) < (1.0 / x).Floor
  {
    var y := 1.0 / x;
    assert y > 1.0;
    assert 1.0 / (10.0 * x) == y / 10.0;
    if y < 10.0 {
      assert 10.0 * x > 1.0;
    } else {
      assert (y / 10.0).Floor as real <= y / 10.0;
      assert y.Floor as real > y - 1.0;
    }
  }

  /** `parseInt(n)` reads `String(n)`: in plain form the integer part,
      rounded toward zero; in exponent form the single digit before the
      point, with the sign of n. */
  function NumberToInt(n: real): (r: int)
  {
    if PlainForm(n) then Truncate(n)
    else if n > 0.0 then SignificantDigit(n)
    else -(SignificantDigit(-n) as int)
  }

  /** `parseInt(v)` on the text of v: a number through `String(v)`; the
      texts "undefined", "null", "true" and "false" give NaN. */
  function ParseInt(v: Value, hexOk: bool): (r: Parsed)
    ensures v.Num? && PlainForm(v.n) ==> r == Int(Truncate(v.n))
    ensures v.Num? && !PlainForm(v.n) ==> r.Int? && 1 <= (if r.value < 0 then -r.value else r.value) <= 9
                                          && (r.value < 0 <==> v.n < 0.0)
    ensures v.Bool? || v.Null? || v.Undefined? ==> r.NaN?
  {
    match v
    case Num(n) => Int(NumberToInt(n))
    case Str(s) => StringToInt(s, hexOk)
    case _ => NaN
  }

  /** Dropping the last digit of x: x lies between 10m and 10M exactly
      when x / 10 lies between m and M. */
  lemma DropDigit(x: nat, m: int, bound: int)
    ensures (10 * m <= x < 10 * bound) <==> (m <= x / 10 < bound)
  {
    assert x == 10 * (x / 10) + x % 10;
  }

  lemma Pow10Step(d: nat, k: nat)
    ensures Pow10(k + 1) == 10 * Pow10(k)
    ensures d * Pow10(k + 1) == 10 * (d * Pow10(k))
  {
    assert Pow10(k + 1) == 10 * Pow10(k);
  }

  lemma {:induction false} Pow10Add(a: nat, b: nat)
    ensures Pow10(a + b) == Pow10(a) * Pow10(b)
    decreases a
  {
    if a > 0 {
      Pow10Add(a - 1, b);
      assert Pow10(a + b) == 10 * Pow10(a - 1 + b);
    }
  }

  /** The leading digit of x is d followed by k digits bounding x: it
      exists, and it is the only digit that bounds x so. */
  lemma {:induction false} LeadingDigitPlace(x: nat)
    requires x > 0
    ensures exists k: nat :: LeadingDigit(x) * Pow10(k) <= x < (LeadingDigit(x) + 1) * Pow10(k)
    decreases x
  {
    var d := LeadingDigit(x);
    if x < 10 {
      assert d * Pow10(0) <= x < (d + 1) * Pow10(0);
    } else {
      LeadingDigitPlace(x / 10);
      var k: nat :| d * Pow10(k) <= x / 10 < (d + 1) * Pow10(k);
      Pow10Step(d, k);
      Pow10Step(d + 1, k);
      DropDigit(x, d * Pow10(k), (d + 1) * Pow10(k));
    }
  }

  lemma {:induction false} LeadingDigitOfPlace(x: nat, d: nat, k: nat)
    requires 1 <= d <= 9 && d * Pow10(k) <= x < (d + 1) * Pow10(k)
    ensures LeadingDigit(x) == d
    decreases k
  {
    if k > 0 {
      Pow10Step(d, k - 1);
      Pow10Step(d + 1, k - 1);
      DropDigit(x, d * Pow10(k - 1), (d + 1) * Pow10(k - 1));
      LeadingDigitOfPlace(x / 10, d, k - 1);
    }
  }

  /** x with its point moved k places to the right. */
  function Shifted(x: real, k: nat): (r: real)
    decreases k
  {
    if k == 0 then x else Shifted(10.0 * x, k - 1)
  }

  /** Moving the point k places multiplies by 10^k. */
  lemma {:induction false} ShiftedIsProduct(x: real, k: nat)
    ensures Shifted(x, k) == x * Pow10(k) as real
    decreases k
  {
    if k > 0 {
      ShiftedIsProduct(10.0 * x, k - 1);
      assert Pow10(k) as real == 10.0 * Pow10(k - 1) as real;
    }
  }

  /** The significant digit of a number below 1 is its first non-zero
      digit after the point: moving the point some k places puts x between
      d and d + 1. */
  lemma {:induction false} SignificantDigitPlace(x: real)
    requires 0.0 < x < 1.0
    ensures exists k: nat :: SignificantDigit(x) as real <= Shifted(x, k) < (SignificantDigit(x) + 1) as real
    decreases (1.0 / x).Floor
  {
    var d := SignificantDigit(x);
    if 10.0 * x >= 1.0 {
      var y := 10.0 * x;
      assert y.Floor < 10;
      assert d == SignificantDigit(y) == LeadingDigit(y.Floor) == y.Floor;
      assert d as real <= Shifted(x, 1) < (d + 1) as real;
    } else {
      TenfoldCloser(x);
      SignificantDigitPlace(10.0 * x);
      assert d == SignificantDigit(10.0 * x);
      var k: nat :| d as real <= Shifted(10.0 * x, k) < (d + 1) as real;
      assert d as real <= Shifted(x, k + 1) < (d + 1) as real;
    }
  }

  /** parseInt of a number String writes with an exponent is its leading
      digit, signed: for at least 1e21 the digit d with d * 10^k <= |n| <
      (d + 1) * 10^k, and below 1e-6 the first non-zero digit after the
      point. */
  lemma ParseIntExponentForm(n: real)
    requires !PlainForm(n)
    ensures var m := if n < 0.0 then -n else n;
            var r := ParseInt(Num(n), true).value;
            var d := if r < 0 then -r else r;
            && (m >= 1.0 ==> exists k: nat :: d * Pow10(k) <= m.Floor < (d + 1) * Pow10(k))
            && (m < 1.0 ==> 0.0 < m && exists k: nat :: d as real <= Shifted(m, k) < (d + 1) as real)
  {
    var m := if n < 0.0 then -n else n;
    assert m > 0.0;
    if m >= 1.0 {
      LeadingDigitPlace(m.Floor);
    } else {
      SignificantDigitPlace(m);
    }
  }

  /** parseInt of the numbers String writes with a negative exponent,
      and of plain ones. */
  lemma ParseIntOfSmallNumbers()
    ensures ParseInt(Num(0.0000001), true) == Int(1)
    ensures ParseInt(Num(-0.0000005), true) == Int(-5)
    ensures ParseInt(Num(0.000001), true) == Int(0)
    ensures ParseInt(Num(-12.75), true) == Int(-12)
  {
    assert SignificantDigit(0.0000001) == 1 by {
      assert SignificantDigit(0.0000001) == SignificantDigit(0.000001);
      assert SignificantDigit(0.000001) == SignificantDigit(0.00001);
      assert SignificantDigit(0.00001) == SignificantDigit(0.0001);
      assert SignificantDigit(0.0001) == SignificantDigit(0.001);
      assert SignificantDigit(0.001) == SignificantDigit(0.01);
      assert SignificantDigit(0.01) == SignificantDigit(0.1);
      assert SignificantDigit(0.1) == SignificantDigit(1.0);
    }
    assert SignificantDigit(0.0000005) == 5 by {
      assert SignificantDigit(0.0000005) == SignificantDigit(0.000005);
      assert SignificantDigit(0.000005) == SignificantDigit(0.00005);
      assert SignificantDigit(0.00005) == SignificantDigit(0.0005);
      assert SignificantDigit(0.0005) == SignificantDigit(0.005);
      assert SignificantDigit(0.005) == SignificantDigit(0.05);
      assert SignificantDigit(0.05) == SignificantDigit(0.5);
      assert SignificantDigit(0.5) == SignificantDigit(5.0);
    }
  }

  /** parseInt of numbers from 1e21 up, which String writes as "1e+21",
      "2.5e+21". */
  lemma ParseIntOfLargeNumbers()
    ensures ParseInt(Num(1_000_000_000_000_000_000_000.0), true) == Int(1)
    ensures ParseInt(Num(2_500_000_000_000_000_000_000.0), true) == Int(2)
  {
    assert Pow10(7) == 10_000_000;
    Pow10Add(7, 7);
    Pow10Add(14, 7);
    LeadingDigitOfPlace(1_000_000_000_000_000_000_000, 1, 21);
    LeadingDigitOfPlace(2_500_000_000_000_000_000_000, 2, 21);
  }

  /** A real with no fractional part. */
  predicate Integral(x: real) {
    x.Floor as real == x
  }

  /** The integer an INT column receives when v is bound to it, or written
      into the statement's text: a whole number, a string holding a decimal
      numeral of a whole number, or a boolean (1 or 0). Null, undefined and
      anything else the statement refuses (None). */
  function IdValue(v: Value): (r: Option<int>)
    ensures v.Num? && Integral(v.n) ==> r == Some(v.n.Floor)
    ensures v.Null? || v.Undefined? ==> r.None?
    ensures r.Some? ==> ToNumber(v) == Some(r.value as real)
  {
    match v
    case Num(n) => if Integral(n) then Some(n.Floor) else None
    case Bool(b) => Some(if b then 1 else 0)
    case Str(s) => StringToId(s)
    case _ => None
  }

  /** The integer a string holding a decimal numeral of a whole number,
      white space around it allowed, stands for. */
  function StringToId(s: string): (r: Option<int>)
    ensures r.Some? ==> StringToNumber(s) == Some(r.value as real)
  {
    var lo := SpaceEnd(s, 0);
    var hi := SpaceStart(s, lo, |s|);
    match DecimalAt(s, lo, hi)
    case Scanned(e, x) => if e == hi && Integral(x) && !Prefixed(s, lo, hi) then Some(x.Floor) else None
    case NoNumber => None
  }

  /** The number a DECIMAL column receives when v is bound to it: a number,
      a boolean (1 or 0), or a string holding one decimal numeral, white
      space around it allowed. Undefined, null and any other text are not
      a number the column takes (None). */
  function DecimalValue(v: Value): (r: Option<real>)
    ensures v.Num? ==> r == Some(v.n)
    ensures v.Undefined? || v.Null? || v == Str("") ==> r.None?
    ensures r.Some? ==> ToNumber(v) == r
  {
    match v
    case Num(n) => Some(n)
    case Bool(b) => Some(if b then 1.0 else 0.0)
    case Str(s) => StringToDecimal(s)
    case _ => None
  }

  /** The number a string holding one decimal numeral stands for. */
  function StringToDecimal(s: string): (r: Option<real>)
    ensures r.Some? ==> StringToNumber(s) == r
  {
    var lo := SpaceEnd(s, 0);
    var hi := SpaceStart(s, lo, |s|);
    match DecimalAt(s, lo, hi)
    case Scanned(e, x) => if e == hi && !Prefixed(s, lo, hi) then Some(x) else None
    case NoNumber => None
  }

  // ----------------------------------------------------------------- lemmas

  /** `!x` says nothing about `isNaN(x)`: "0" is truthy and numerically zero,
      null and "" are falsy yet not NaN, undefined is NaN. */
  lemma TruthinessIsNotNumber()
    ensures Truthy(Str("0")) && ToNumber(Str("0")) == Some(0.0)
    ensures !Truthy(Null) && !IsNaN(Null) && ParseFloat(Null).None?
    ensures !Truthy(Str("")) && !IsNaN(Str("")) && ParseFloat(Str("")).None?
    ensures !Truthy(Undefined) && IsNaN(Undefined)
  {
    var z := "0";
    assert SpaceEnd(z, 0) == 0;
    assert SpaceStart(z, 0, 1) == 1;
    assert DigitsEnd(z, 0, 1, 10) == 1;
    assert DigitsValue(z, 0, 1, 10) == 0;
  }

  /** Number and parseFloat disagree: "12abc" is NaN to the one and 12 to
      the other, and blank text is 0 to the one and NaN to the other. */
  lemma NumberAndParseFloatDiffer()
    ensures IsNaN(Str("12abc")) && ParseFloat(Str("12abc")) == Some(12.0)
    ensures ToNumber(Str("  ")) == Some(0.0) && ParseFloat(Str("  ")).None?
  {
    TrailingLettersNaN();
    TrailingLettersParsed();
    BlankIsZero();
  }

  lemma TrailingLettersNaN()
    ensures IsNaN(Str("12abc"))
  {
    var s := "12abc";
    assert SpaceEnd(s, 0) == 0;
    assert SpaceStart(s, 0, 5) == 5;
    assert DigitsEnd(s, 0, 5, 10) == 2;
    assert ExponentAt(s, 2, 5) == (2, 0);
  }

  lemma TrailingLettersParsed()
    ensures ParseFloat(Str("12abc")) == Some(12.0)
  {
    var s := "12abc";
    assert SpaceEnd(s, 0) == 0;
    assert SignEnd(s, 0, 5) == 0;
    assert DigitsEnd(s, 0, 5, 10) == 2;
    assert PointEnd(s, 2, 5) == 2;
    assert ExponentAt(s, 2, 5) == (2, 0);
    assert DigitsValue(s, 0, 2, 10) == 12 by {
      assert DigitsValue(s, 0, 1, 10) == 1;
    }
    assert Scale(0) == 1.0;
    assert NumeralValue(s, 0, 0, 2, 2, 0) == 12.0;
    assert DecimalAt(s, 0, 5) == Scanned(2, 12.0);
    assert StringToFloat(s) == Some(12.0);
  }

  lemma BlankIsZero()
    ensures ToNumber(Str("  ")) == Some(0.0) && ParseFloat(Str("  ")).None?
  {
    var w := "  ";
    assert SpaceEnd(w, 0) == 2;
  }

  /** Only the digits s[i..j] decide their value. */
  lemma {:induction false} DigitsValueLocal(s: string, t: string, i: nat, j: nat, radix: nat)
    requires i <= j <= |s| && j <= |t| && s[i..j] == t[i..j]
    ensures DigitsValue(s, i, j, radix) == DigitsValue(t, i, j, radix)
    decreases j - i
  {
    if i < j {
      assert s[i..j - 1] == t[i..j - 1] by {
        assert s[i..j - 1] == s[i..j][..j - 1 - i];
        assert t[i..j - 1] == t[i..j][..j - 1 - i];
      }
      assert s[j - 1] == s[i..j][j - 1 - i] == t[j - 1];
      DigitsValueLocal(s, t, i, j - 1, radix);
    }
  }

  /** Reading digits with a further bound changes nothing when the nearer
      bound is the end of the text or white space. */
  lemma {:induction false} DigitsEndWider(s: string, i: nat, hi: nat, top: nat, radix: nat)
    requires i <= hi <= top <= |s| && radix <= 36
    requires hi == top || IsSpace(s[hi])
    ensures DigitsEnd(s, i, top, radix) == DigitsEnd(s, i, hi, radix)
    decreases hi - i
  {
    if i < hi && DigitOf(s[i]) < radix {
      DigitsEndWider(s, i + 1, hi, top, radix);
    }
  }

  lemma SignEndWider(s: string, p: nat, hi: nat, top: nat)
    requires p <= hi <= top <= |s| && (hi == top || IsSpace(s[hi]))
    ensures SignEnd(s, p, top) == SignEnd(s, p, hi)
  {
  }

  lemma PointEndWider(s: string, a: nat, hi: nat, top: nat)
    requires a <= hi <= top <= |s| && (hi == top || IsSpace(s[hi]))
    ensures PointEnd(s, a, top) == PointEnd(s, a, hi)
  {
    if a < hi && s[a] == '.' {
      DigitsEndWider(s, a + 1, hi, top, 10);
    }
  }

  lemma ExponentWider(s: string, m: nat, hi: nat, top: nat)
    requires m <= hi <= top <= |s| && (hi == top || IsSpace(s[hi]))
    ensures ExponentAt(s, m, top) == ExponentAt(s, m, hi)
  {
    if m < hi && (s[m] == 'e' || s[m] == 'E') {
      var k := if m + 1 < hi && (s[m + 1] == '+' || s[m + 1] == '-') then m + 2 else m + 1;
      assert k == (if m + 1 < top && (s[m + 1] == '+' || s[m + 1] == '-') then m + 2 else m + 1);
      DigitsEndWider(s, k, hi, top, 10);
    }
  }

  /** A decimal numeral read up to the end of the text or to white space
      reads the same when the reading may go on past that point. */
  lemma DecimalAtWider(s: string, p: nat, hi: nat, top: nat)
    requires p <= hi <= top <= |s| && (hi == top || IsSpace(s[hi]))
    ensures DecimalAt(s, p, top) == DecimalAt(s, p, hi)
  {
    SignEndWider(s, p, hi, top);
    var q := SignEnd(s, p, hi);
    DigitsEndWider(s, q, hi, top, 10);
    var a := DigitsEnd(s, q, hi, 10);
    PointEndWider(s, a, hi, top);
    ExponentWider(s, PointEnd(s, a, hi), hi, top);
  }

  /** When a text less its surrounding white space is one decimal numeral,
      `parseFloat` and `Number` agree on it: the value a guard
      `isNaN(x) || parseFloat(x) <= 0` let through is the value stored. */
  lemma ParseFloatAgrees(s: string)
    requires SpaceEnd(s, 0) < SpaceStart(s, SpaceEnd(s, 0), |s|)
    requires !Prefixed(s, SpaceEnd(s, 0), SpaceStart(s, SpaceEnd(s, 0), |s|))
    requires StringToNumber(s).Some?
    ensures ParseFloat(Str(s)) == StringToNumber(s)
  {
    var lo := SpaceEnd(s, 0);
    var hi := SpaceStart(s, lo, |s|);
    assert hi == |s| || IsSpace(s[hi]);
    DecimalAtWider(s, lo, hi, |s|);
  }

  /** A text the DECIMAL column takes is the number parseFloat reads from
      it, so a guard on parseFloat speaks about the stored value. */
  lemma DecimalValueIsParseFloat(s: string)
    requires DecimalValue(Str(s)).Some?
    ensures ParseFloat(Str(s)) == DecimalValue(Str(s))
  {
    ParseFloatAgrees(s);
  }

  /** A run of decimal digits is a numeral of the number it spells. */
  lemma DigitsRead(s: string)
    requires |s| > 0 && forall j :: 0 <= j < |s| ==> '0' <= s[j] <= '9'
    ensures DecimalAt(s, 0, |s|) == Scanned(|s|, DigitsValue(s, 0, |s|, 10) as real)
  {
    DigitsEndAll(s, 0, |s|);
    assert SignEnd(s, 0, |s|) == 0;
    assert PointEnd(s, |s|, |s|) == |s|;
    assert ExponentAt(s, |s|, |s|) == (|s|, 0);
  }

  /** `String(n)` has no white space around it. */
  lemma DecimalTextBare(n: nat)
    ensures SpaceEnd(DecimalText(n), 0) == 0
    ensures SpaceStart(DecimalText(n), 0, |DecimalText(n)|) == |DecimalText(n)|
  {
    var s := DecimalText(n);
    assert !IsSpace(s[0]);
    assert !IsSpace(s[|s| - 1]);
  }

  /** The decimal text of n reads back as n under Number, parseFloat and
      parseInt. */
  lemma DecimalTextReadsBack(n: nat)
    ensures ToNumber(Str(DecimalText(n))) == Some(n as real)
    ensures ParseFloat(Str(DecimalText(n))) == Some(n as real)
    ensures ParseInt(Str(DecimalText(n)), true) == Int(n)
    ensures IdValue(Str(DecimalText(n))) == Some(n)
  {
    var s := DecimalText(n);
    DecimalTextDigits(n);
    DecimalTextBare(n);
    DigitsRead(s);
    DigitsEndAll(s, 0, |s|);
    assert !Prefixed(s, 0, |s|);
    assert StringToNumber(s) == Some(n as real);
    assert StringToInt(s, true) == Int(n);
    assert (n as real).Floor == n;
  }

  /** The digits of String(n) spell n, and String(n) starts with 0 only when
      it is "0". */
  lemma {:induction false} DecimalTextDigits(n: nat)
    ensures DigitsValue(DecimalText(n), 0, |DecimalText(n)|, 10) == n
    ensures |DecimalText(n)| >= 2 ==> DecimalText(n)[0] != '0'
    decreases n
  {
    var s := DecimalText(n);
    var digit := [('0' as int + n % 10) as char];
    if n >= 10 {
      var front := DecimalText(n / 10);
      DecimalTextDigits(n / 10);
      assert s == front + digit;
      assert s[..|front|] == front;
      DigitsValueLocal(s, front, 0, |front|, 10);
      assert s[0] == front[0];
    } else {
      assert DigitsValue(s, 0, 0, 10) == 0;
    }
  }

  lemma {:induction false} DigitsEndAll(s: string, i: nat, hi: nat)
    requires i <= hi <= |s|
    requires forall j :: i <= j < hi ==> '0' <= s[j] <= '9'
    ensures DigitsEnd(s, i, hi, 10) == hi
    decreases hi - i
  {
    if i < hi {
      DigitsEndAll(s, i + 1, hi);
    }
  }

  /** A whole number stored in an INT column is what Number reads; and a
      whole number or its decimal text is stored as itself. */
  lemma IdValueOfWhole(n: nat)
    ensures IdValue(Num(n as real)) == Some(n)
    ensures IdValue(Str(DecimalText(n))) == Some(n)
  {
    DecimalTextReadsBack(n);
    assert (n as real).Floor == n;
  }
}
