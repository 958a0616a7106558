/** The numeric fields of the admin food forms: a sort order is read with
    `parseInt(text) || 0` and a price with `parseFloat(text) || 0`, where
    `text` is what the input holds. `None` stands for JavaScript's NaN, which
    `|| 0` turns into 0 (as it does -0). */
module NumberInput {
  import opened Common

  predicate IsDigit(c: char) {
    '0' <= c <= '9'
  }

  predicate AllDigits(d: string) {
    forall i :: 0 <= i < |d| ==> IsDigit(d[i])
  }

  /** The white space `parseInt` and `parseFloat` skip first. */
  predicate IsSpace(c: char) {
    c == ' ' || c == '\t' || c == '\n' || c == '\r' || c == '\U{000B}' || c == '\U{000C}'
    || c == '\U{00A0}' || c == '\U{2028}' || c == '\U{2029}' || c == '\U{FEFF}'
  }

  function SkipSpace(s: string): (r: string)
    ensures |r| <= |s| && r == s[|s| - |r|..]
    ensures r == [] || !IsSpace(r[0])
  {
    if s != [] && IsSpace(s[0]) then SkipSpace(s[1..]) else s
  }

  /** An optional `+` or `-`: whether it was `-`, and the rest. */
  function Sign(s: string): (bool, string) {
    if s != [] && (s[0] == '-' || s[0] == '+') then (s[0] == '-', s[1..]) else (false, s)
  }

  /** The longest prefix of decimal digits. */
  function Digits(s: string): (d: string)
    ensures |d| <= |s| && d == s[..|d|]
    ensures AllDigits(d)
    ensures |d| < |s| ==> !IsDigit(s[|d|])
  {
    if s != [] && IsDigit(s[0]) then [s[0]] + Digits(s[1..]) else []
  }

  /** The value of a decimal digit string, most significant digit first. */
  function Value(d: string): nat
    requires AllDigits(d)
  {
    if d == [] then 0 else 10 * Value(d[..|d| - 1]) + (d[|d| - 1] as int - '0' as int)
  }

  predicate IsHexDigit(c: char) {
    IsDigit(c) || 'a' <= c <= 'f' || 'A' <= c <= 'F'
  }

  function HexDigitValue(c: char): nat
    requires IsHexDigit(c)
  {
    if IsDigit(c) then c as int - '0' as int
    else if 'a' <= c <= 'f' then c as int - 'a' as int + 10
    else c as int - 'A' as int + 10
  }

  function HexDigits(s: string): (d: string)
    ensures |d| <= |s| && d == s[..|d|]
    ensures forall i :: 0 <= i < |d| ==> IsHexDigit(d[i])
  {
    if s != [] && IsHexDigit(s[0]) then [s[0]] + HexDigits(s[1..]) else []
  }

  function HexValue(d: string): nat
    requires forall i :: 0 <= i < |d| ==> IsHexDigit(d[i])
  {
    if d == [] then 0 else 16 * HexValue(d[..|d| - 1]) + HexDigitValue(d[|d| - 1])
  }

  predicate HexPrefixed(s: string) {
    |s| >= 2 && s[0] == '0' && (s[1] == 'x' || s[1] == 'X')
  }

  /** `parseInt(text)` without a radix: white space, a sign, then a `0x`
      prefix and hexadecimal digits or else decimal digits, as many as run
      on; no digit at all is NaN. */
  function ParseInt(text: string): Option<int> {
    var (negative, rest) := Sign(SkipSpace(text));
    match IntMagnitude(rest)
    case None => None
    case Some(m) => Some(if negative then 0 - m else m)
  }

  /** The unsigned part of `parseInt`. */
  function IntMagnitude(rest: string): Option<nat> {
    if HexPrefixed(rest) then
      var h := HexDigits(rest[2..]);
      if h == [] then None else Some(HexValue(h))
    else
      var d := Digits(rest);
      if d == [] then None else Some(Value(d))
  }

  /** `parseInt(text) || 0`. */
  function IntOrZero(text: string): int {
    ParseInt(text).GetOr(0)
  }

  /** The value of fraction digits `d` after the point: 0.d₁d₂… */
  function FractionValue(d: string): (v: real)
    requires AllDigits(d)
    ensures 0.0 <= v <= 1.0
  {
    if d == [] then 0.0 else ((d[0] as int - '0' as int) as real + FractionValue(d[1..])) / 10.0
  }

  /** `x` times 10 to the power `e`. */
  function Scaled(x: real, e: int): real
    decreases if e >= 0 then e else -e
  {
    if e == 0 then x else if e > 0 then Scaled(x * 10.0, e - 1) else Scaled(x / 10.0, e + 1)
  }

  /** The exponent an `e`/`E` part spells out, 0 when there is none or it
      has no digits (then it is not part of the number). */
  function Exponent(s: string): int {
    if s != [] && (s[0] == 'e' || s[0] == 'E') then
      var (negative, rest) := Sign(s[1..]);
      var d := Digits(rest);
      if d == [] then 0 else if negative then 0 - Value(d) else Value(d)
    else 0
  }

  /** `parseFloat(text)`: white space, a sign, integer digits, an optional
      `.` with fraction digits, an optional exponent; NaN when neither the
      integer nor the fraction part has a digit. */
  function ParseFloat(text: string): Option<real> {
    var (negative, rest) := Sign(SkipSpace(text));
    match FloatMagnitude(rest)
    case None => None
    case Some(m) => Some(if negative then -m else m)
  }

  /** The unsigned part of `parseFloat`. */
  function FloatMagnitude(rest: string): Option<real> {
    var whole := Digits(rest);
    var (fraction, afterFraction) := FractionPart(rest[|whole|..]);
    if whole == [] && fraction == [] then None
    else Some(Scaled(Value(whole) as real + FractionValue(fraction), Exponent(afterFraction)))
  }

  /** The digits after a `.` that follows the integer digits, and what comes
      after them; no digits and nothing consumed without a point. */
  function FractionPart(afterWhole: string): (r: (string, string))
    ensures AllDigits(r.0)
  {
    if afterWhole != [] && afterWhole[0] == '.' then
      var fraction := Digits(afterWhole[1..]);
      (fraction, afterWhole[1 + |fraction|..])
    else ([], afterWhole)
  }

  /** `parseFloat(text) || 0`. */
  function FloatOrZero(text: string): real {
    ParseFloat(text).GetOr(0.0)
  }

  // ------------------------------------------------------------ properties

  /** Text without a single digit reads as 0 in both fields (an emptied
      input among it). */
  lemma NoDigitIsZero(text: string)
    requires forall i :: 0 <= i < |text| ==> !IsDigit(text[i])
    ensures IntOrZero(text) == 0
    ensures FloatOrZero(text) == 0.0
  {
    var t := SkipSpace(text);
    var k :| 0 <= k <= |text| && t == text[k..];
    var (negative, rest) := Sign(t);
    assert forall i :: 0 <= i < |rest| ==> !IsDigit(rest[i]);
    NoDigitMagnitudes(rest);
    assert ParseInt(text) == None;
    assert ParseFloat(text) == None;
  }

  /** Neither magnitude reads anything from text without digits. */
  lemma NoDigitMagnitudes(rest: string)
    requires forall i :: 0 <= i < |rest| ==> !IsDigit(rest[i])
    ensures IntMagnitude(rest) == None && FloatMagnitude(rest) == None
  {
    assert !HexPrefixed(rest);
    assert Digits(rest) == [];
    if rest != [] && rest[0] == '.' {
      assert Digits(rest[1..]) == [];
    }
    assert FractionPart(rest).0 == [];
  }

  /** The decimal numeral of `n`. */
  function NatText(n: nat): (t: string)
    ensures t != [] && AllDigits(t)
  {
    if n < 10 then [('0' as int + n) as char] else NatText(n / 10) + [('0' as int + n % 10) as char]
  }

  lemma {:induction false} NatTextValue(n: nat)
    ensures Value(NatText(n)) == n
    ensures |NatText(n)| > 1 ==> NatText(n)[0] != '0'
    decreases n
  {
    if n >= 10 {
      NatTextValue(n / 10);
      var t := NatText(n);
      assert t[..|t| - 1] == NatText(n / 10);
    }
  }

  /** Digits followed by something that is not a digit: the digits are read. */
  lemma {:induction false} DigitsOfNumeral(d: string, rest: string)
    requires AllDigits(d)
    requires rest == [] || !IsDigit(rest[0])
    ensures Digits(d + rest) == d
    decreases |d|
  {
    if d != [] {
      assert (d + rest)[1..] == d[1..] + rest;
      DigitsOfNumeral(d[1..], rest);
    } else {
      assert d + rest == rest;
    }
  }

  /** The numeral of an integer, with a `-` when it is negative. */
  function IntText(n: int): string {
    if n < 0 then "-" + NatText(-n) else NatText(n)
  }

  /** Text that starts with a digit has no white space or sign to skip. */
  lemma StartsUnsigned(text: string)
    requires text != [] && IsDigit(text[0])
    ensures Sign(SkipSpace(text)) == (false, text)
  {
    assert !IsSpace(text[0]);
    assert SkipSpace(text) == text;
  }

  /** The unsigned part of `parseInt` on a numeral followed by other text. */
  lemma IntMagnitudeOfNumeral(n: nat, rest: string)
    requires rest == [] || (!IsDigit(rest[0]) && rest[0] != 'x' && rest[0] != 'X')
    ensures IntMagnitude(NatText(n) + rest) == Some(n)
  {
    var numeral := NatText(n);
    NatTextValue(n);
    DigitsOfNumeral(numeral, rest);
    var text := numeral + rest;
    if |numeral| == 1 {
      assert |text| >= 2 ==> text[1] == rest[0];
    } else {
      assert text[0] == numeral[0];
    }
  }

  /** `parseInt` reads back the integer a field shows, and stops at the
      first character that is not a digit, so `"12.7"` and `"3e5"` give 12
      and 3. */
  lemma IntOrZeroReadsNumeral(n: int, rest: string)
    requires rest == [] || (!IsDigit(rest[0]) && rest[0] != 'x' && rest[0] != 'X')
    ensures IntOrZero(IntText(n) + rest) == n
  {
    if n < 0 {
      ReadsNegative(n, rest);
    } else {
      ReadsNonNegative(n, rest);
    }
  }

  lemma ReadsNonNegative(n: int, rest: string)
    requires 0 <= n
    requires rest == [] || (!IsDigit(rest[0]) && rest[0] != 'x' && rest[0] != 'X')
    ensures IntOrZero(IntText(n) + rest) == n
  {
    IntMagnitudeOfNumeral(n, rest);
    var text := NatText(n) + rest;
    assert IntText(n) + rest == text;
    StartsUnsigned(text);
    ParseIntParts(text, false, text, n);
  }

  lemma ReadsNegative(n: int, rest: string)
    requires n < 0
    requires rest == [] || (!IsDigit(rest[0]) && rest[0] != 'x' && rest[0] != 'X')
    ensures IntOrZero(IntText(n) + rest) == n
  {
    var m: nat := -n;
    IntMagnitudeOfNumeral(m, rest);
    var unsigned := NatText(m) + rest;
    assert IntText(n) + rest == "-" + unsigned;
    NegativeSkipsNothing(unsigned);
    ParseIntParts("-" + unsigned, true, unsigned, m);
  }

  /** A leading `-` is the sign, with nothing to skip before it. */
  lemma {:induction false} NegativeSkipsNothing(unsigned: string)
    ensures Sign(SkipSpace("-" + unsigned)) == (true, unsigned)
  {
    var text := "-" + unsigned;
    assert SkipSpace(text) == text;
    assert text[1..] == unsigned;
  }

  /** `parseInt` from its sign and its unsigned part. */
  lemma {:induction false} ParseIntParts(text: string, negative: bool, unsigned: string, m: nat)
    requires Sign(SkipSpace(text)) == (negative, unsigned) && IntMagnitude(unsigned) == Some(m)
    ensures IntOrZero(text) == if negative then -(m as int) else m as int
  {
  }

  /** Digits run up to the first character that is not one. */
  lemma DigitsThenStop(d: string, rest: string)
    requires AllDigits(d)
    requires rest == [] || !IsDigit(rest[0])
    ensures Digits(d + rest) == d && (d + rest)[|d|..] == rest
  {
    DigitsOfNumeral(d, rest);
  }

  /** The unsigned part of `parseFloat` on whole digits, a point and
      fraction digits. */
  lemma {:induction false} FloatMagnitudeOfDecimal(text: string, whole: string, fraction: string, rest: string)
    requires whole != [] && AllDigits(whole) && AllDigits(fraction)
    requires rest == [] || (!IsDigit(rest[0]) && rest[0] != 'e' && rest[0] != 'E')
    requires text == whole + ("." + (fraction + rest))
    ensures FloatMagnitude(text) == Some(Value(whole) as real + FractionValue(fraction))
  {
    FloatMagnitudeOfDotted(text, whole, fraction, rest);
    var x := Value(whole) as real + FractionValue(fraction);
    assert Exponent(rest) == 0;
    assert Scaled(x, 0) == x;
  }

  /** The same with whatever follows the fraction digits read as an
      exponent. */
  lemma FloatMagnitudeOfDotted(text: string, whole: string, fraction: string, rest: string)
    requires whole != [] && AllDigits(whole) && AllDigits(fraction)
    requires rest == [] || !IsDigit(rest[0])
    requires text == whole + ("." + (fraction + rest))
    ensures FloatMagnitude(text) == Some(Scaled(Value(whole) as real + FractionValue(fraction), Exponent(rest)))
  {
    var afterWhole := "." + (fraction + rest);
    DigitsThenStop(whole, afterWhole);
    assert Digits(text) == whole;
    assert text[|whole|..] == afterWhole;
    FractionPartOfDotted(fraction, rest);
    assert FractionPart(text[|whole|..]) == (fraction, rest);
    MagnitudeFromParts(text, whole, fraction, rest);
  }

  /** The unsigned part of `parseFloat` from its integer digits, fraction
      digits and what follows them. */
  lemma {:induction false} MagnitudeFromParts(text: string, whole: string, fraction: string, after: string)
    requires Digits(text) == whole && whole != []
    requires FractionPart(text[|whole|..]) == (fraction, after)
    ensures FloatMagnitude(text) == Some(Scaled(Value(whole) as real + FractionValue(fraction), Exponent(after)))
  {
    var x := Value(whole) as real + FractionValue(fraction);
    var e := Exponent(after);
    assert FloatMagnitude(text) == Some(Scaled(x, e));
  }

  lemma FractionPartOfDotted(fraction: string, rest: string)
    requires AllDigits(fraction)
    requires rest == [] || !IsDigit(rest[0])
    ensures FractionPart("." + (fraction + rest)) == (fraction, rest)
  {
    var afterWhole := "." + (fraction + rest);
    assert afterWhole[1..] == fraction + rest;
    DigitsThenStop(fraction, rest);
  }

  /** `parseFloat` reads back the decimal a price field shows: whole part,
      point and fraction digits, e.g. `"12.50"` is 12.5. */
  lemma FloatOrZeroReadsDecimal(whole: nat, fraction: string, rest: string)
    requires AllDigits(fraction)
    requires rest == [] || (!IsDigit(rest[0]) && rest[0] != 'e' && rest[0] != 'E')
    ensures FloatOrZero(NatText(whole) + "." + fraction + rest) ==
      whole as real + FractionValue(fraction)
  {
    var numeral := NatText(whole);
    NatTextValue(whole);
    var text := numeral + "." + fraction + rest;
    Regroup(numeral, ".", fraction, rest);
    DecimalReads(text, numeral, fraction, rest);
  }

  lemma Regroup(a: string, b: string, c: string, d: string)
    ensures a + b + c + d == a + (b + (c + d))
  {
  }

  lemma {:induction false} DecimalReads(text: string, whole: string, fraction: string, rest: string)
    requires whole != [] && AllDigits(whole) && AllDigits(fraction)
    requires rest == [] || (!IsDigit(rest[0]) && rest[0] != 'e' && rest[0] != 'E')
    requires text == whole + ("." + (fraction + rest))
    ensures FloatOrZero(text) == Value(whole) as real + FractionValue(fraction)
  {
    assert text[0] == whole[0];
    StartsUnsigned(text);
    FloatMagnitudeOfDecimal(text, whole, fraction, rest);
    ParseFloatUnsigned(text);
  }

  /** `parseFloat` of text with no sign to read. */
  lemma {:induction false} ParseFloatUnsigned(text: string)
    requires Sign(SkipSpace(text)) == (false, text)
    ensures FloatOrZero(text) == FloatMagnitude(text).GetOr(0.0)
  {
  }

  /** `parseFloat` reads back a whole number. */
  lemma FloatOrZeroReadsWhole(whole: nat, rest: string)
    requires rest == [] || (!IsDigit(rest[0]) && rest[0] != '.' && rest[0] != 'e' && rest[0] != 'E')
    ensures FloatOrZero(NatText(whole) + rest) == whole as real
  {
    var numeral := NatText(whole);
    NatTextValue(whole);
    var text := numeral + rest;
    StartsUnsigned(text);
    FloatMagnitudeOfWhole(text, numeral, rest);
    ParseFloatUnsigned(text);
  }

  /** The unsigned part of `parseFloat` on whole digits alone. */
  lemma FloatMagnitudeOfWhole(text: string, whole: string, rest: string)
    requires whole != [] && AllDigits(whole)
    requires rest == [] || (!IsDigit(rest[0]) && rest[0] != '.' && rest[0] != 'e' && rest[0] != 'E')
    requires text == whole + rest
    ensures FloatMagnitude(text) == Some(Value(whole) as real)
  {
    DigitsThenStop(whole, rest);
    assert Exponent(rest) == 0;
  }

  /** Unlike `parseInt`, `parseFloat` applies an exponent. */
  lemma ExponentApplies(text: string)
    requires text == "1.5e3"
    ensures FloatOrZero(text) == 1500.0
    ensures IntOrZero(text) == 1
  {
    assert text[0] == '1';
    StartsUnsigned(text);
    FloatMagnitudeWithExponent(text);
    ParseFloatUnsigned(text);
    assert IntText(1) + ".5e3" == text;
    IntOrZeroReadsNumeral(1, ".5e3");
  }

  lemma FloatMagnitudeWithExponent(text: string)
    requires text == "1.5e3"
    ensures FloatMagnitude(text) == Some(1500.0)
  {
    assert text == "1" + ("." + ("5" + "e3"));
    FloatMagnitudeOfDotted(text, "1", "5", "e3");
    ExponentOfE3();
    PiecesOfOnePointFive();
  }

  lemma ExponentOfE3()
    ensures Exponent("e3") == 3
  {
    assert "e3"[1..] == "3";
    assert Digits("3") == "3";
    assert Value("3") == 10 * Value([]) + 3;
  }

  lemma PiecesOfOnePointFive()
    ensures Scaled(Value("1") as real + FractionValue("5"), 3) == 1500.0
  {
    assert Value("1") == 10 * Value([]) + 1 == 1;
    assert "5"[1..] == [];
    assert FractionValue("5") == (5.0 + FractionValue([])) / 10.0 == 0.5;
    assert Scaled(1.5, 3) == Scaled(15.0, 2) == Scaled(150.0, 1) == Scaled(1500.0, 0) == 1500.0;
  }
}
