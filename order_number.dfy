/** Order numbers: "ORD-" + an eight-character random alphanumeric string
    upper-cased + "-" + today's date as YYYYMMDD. The random string and the
    date are inputs; the source draws them from `Str::random(8)` and the
    clock. */
module OrderNumbers {
  import opened Common

  predicate IsDigit(c: char) {
    '0' <= c <= '9'
  }

  predicate IsAlnum(c: char) {
    'A' <= c <= 'Z' || 'a' <= c <= 'z' || IsDigit(c)
  }

  predicate IsUpperAlnum(c: char) {
    'A' <= c <= 'Z' || IsDigit(c)
  }

  /** ASCII upper-casing, as strtoupper does. */
  function ToUpper(c: char): (u: char)
    ensures IsAlnum(c) ==> IsUpperAlnum(u)
    ensures 'a' <= c <= 'z' ==> u as int == c as int - 32
    ensures !('a' <= c <= 'z') ==> u == c
  {
    if 'a' <= c <= 'z' then (c as int - 32) as char else c
  }

  function UpperString(s: string): (r: string)
    ensures |r| == |s|
    ensures forall i :: 0 <= i < |s| ==> r[i] == ToUpper(s[i])
  {
    if s == [] then [] else UpperString(s[..|s| - 1]) + [ToUpper(s[|s| - 1])]
  }

  /** What `Str::random(8)` yields: eight characters from [A-Za-z0-9]. */
  predicate IsRandomToken(s: string) {
    |s| == 8 && forall i :: 0 <= i < |s| ==> IsAlnum(s[i])
  }

  datatype Date = Date(year: int, month: int, day: int)

  /** A calendar date whose year `date('Y')` writes with four digits. */
  predicate ValidDate(d: Date) {
    0 <= d.year <= 9999 && 1 <= d.month <= 12 && 1 <= d.day <= 31
  }

  function DigitChar(n: int): (c: char)
    requires 0 <= n <= 9
    ensures IsDigit(c) && DigitValue(c) == n
  {
    ('0' as int + n) as char
  }

  function DigitValue(c: char): int
    requires IsDigit(c)
  {
    c as int - '0' as int
  }

  /** `n` written with exactly `width` decimal digits, zero-padded on the left. */
  function Padded(n: nat, width: nat): (s: string)
    requires n < Pow10(width)
    ensures |s| == width
    ensures forall i :: 0 <= i < |s| ==> IsDigit(s[i])
    ensures DecimalValue(s) == n
  {
    if width == 0 then ""
    else Padded(n / 10, width - 1) + [DigitChar(n % 10)]
  }

  function Pow10(k: nat): nat {
    if k == 0 then 1 else 10 * Pow10(k - 1)
  }

  /** The number a string of decimal digits denotes. */
  function DecimalValue(s: string): nat
    requires forall i :: 0 <= i < |s| ==> IsDigit(s[i])
  {
    if s == [] then 0 else 10 * DecimalValue(s[..|s| - 1]) + DigitValue(s[|s| - 1])
  }

  /** `date('Ymd')`. */
  function DateStamp(d: Date): (s: string)
    requires ValidDate(d)
    ensures |s| == 8
    ensures forall i :: 0 <= i < |s| ==> IsDigit(s[i])
  {
    Padded(d.year, 4) + Padded(d.month, 2) + Padded(d.day, 2)
  }

  /** 'ORD-' . strtoupper(Str::random(8)) . '-' . date('Ymd') */
  function OrderNumber(token: string, today: Date): (r: string)
    requires IsRandomToken(token) && ValidDate(today)
    ensures WellFormed(r)
    ensures r[4..12] == UpperString(token)
  {
    "ORD-" + UpperString(token) + "-" + DateStamp(today)
  }

  /** The shape every order number has: 21 characters, "ORD-", eight
      characters from [A-Z0-9], "-", eight digits. */
  predicate WellFormed(s: string) {
    && |s| == 21
    && s[..4] == "ORD-"
    && (forall i :: 4 <= i < 12 ==> IsUpperAlnum(s[i]))
    && s[12] == '-'
    && (forall i :: 13 <= i < 21 ==> IsDigit(s[i]))
  }

  /** Reads the random segment and the date back out of an order number. */
  function ParseOrderNumber(s: string): (r: Option<(string, Date)>)
    ensures r.Some? <==> WellFormed(s)
  {
    if !WellFormed(s) then None
    else Some((s[4..12], Date(DecimalValue(s[13..17]), DecimalValue(s[17..19]), DecimalValue(s[19..21]))))
  }

  lemma ParseOrderNumberRoundTrip(token: string, today: Date)
    requires IsRandomToken(token) && ValidDate(today)
    ensures ParseOrderNumber(OrderNumber(token, today)) == Some((UpperString(token), today))
  {
    var r := OrderNumber(token, today);
    var y, m, d := Padded(today.year, 4), Padded(today.month, 2), Padded(today.day, 2);
    assert r == "ORD-" + UpperString(token) + "-" + y + m + d;
    assert r[13..17] == y;
    assert r[17..19] == m;
    assert r[19..21] == d;
  }

  /** Two order numbers agree exactly when their upper-cased tokens and dates
      agree. Numbers drawn on different days never collide; on one day a
      collision needs two tokens that are equal up to letter case. */
  lemma {:induction false} OrderNumberInjective(t1: string, d1: Date, t2: string, d2: Date)
    requires IsRandomToken(t1) && ValidDate(d1) && IsRandomToken(t2) && ValidDate(d2)
    ensures OrderNumber(t1, d1) == OrderNumber(t2, d2) <==> UpperString(t1) == UpperString(t2) && d1 == d2
  {
    if OrderNumber(t1, d1) == OrderNumber(t2, d2) {
      ParseOrderNumberRoundTrip(t1, d1);
      ParseOrderNumberRoundTrip(t2, d2);
    }
  }

  /** Tokens that differ only in letter case give the same order number. */
  lemma CaseVariantsCollide(t1: string, t2: string, d: Date)
    requires IsRandomToken(t1) && IsRandomToken(t2) && ValidDate(d)
    requires forall i :: 0 <= i < 8 ==> ToUpper(t1[i]) == ToUpper(t2[i])
    ensures OrderNumber(t1, d) == OrderNumber(t2, d)
  {
    var u1, u2 := UpperString(t1), UpperString(t2);
    assert forall i :: 0 <= i < |u1| ==> u1[i] == u2[i];
    assert u1 == u2;
  }

  lemma UpperExample()
    ensures UpperString("a1B2c3D4") == "A1B2C3D4"
  {
    assert UpperString("a1B2c3D4"[..1]) == "A";
  }

  lemma DateStampExample()
    ensures DateStamp(Date(2025, 12, 4)) == "20251204"
  {
    assert Padded(2, 1) == "2";
    assert Padded(20, 2) == "20";
    assert Padded(202, 3) == "202";
    assert Padded(2025, 4) == "2025";
    assert Padded(1, 1) == "1";
    assert Padded(12, 2) == "12";
    assert Padded(0, 1) == "0";
    assert Padded(4, 2) == "04";
  }

  /** The number of an order placed on 4 December 2025 with token "a1B2c3D4". */
  lemma OrderNumberExample()
    ensures OrderNumber("a1B2c3D4", Date(2025, 12, 4)) == "ORD-A1B2C3D4-20251204"
  {
    var u, stamp := UpperString("a1B2c3D4"), DateStamp(Date(2025, 12, 4));
    UpperExample();
    DateStampExample();
    assert "ORD-" + u == "ORD-A1B2C3D4";
    assert "ORD-A1B2C3D4" + "-" == "ORD-A1B2C3D4-";
    assert "ORD-A1B2C3D4-" + stamp == "ORD-A1B2C3D4-20251204";
  }
}
