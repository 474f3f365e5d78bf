/** Decimal text of 64-bit integers, as written by `ostream <<` and read by `istream >>` and strtoll. */
module Decimal {
  import opened Wrappers

  const INT64_MIN: int := -0x8000_0000_0000_0000
  const INT64_MAX: int := 0x7fff_ffff_ffff_ffff

  type int64 = x: int | INT64_MIN <= x <= INT64_MAX

  predicate InRange(n: int) {
    INT64_MIN <= n <= INT64_MAX
  }

  predicate IsDigit(c: char) {
    '0' <= c <= '9'
  }

  predicate IsSpace(c: char) {
    c == ' ' || c == '\n' || c == '\t' || c == '\r' || c == '\U{000B}' || c == '\U{000C}'
  }

  function DigitChar(d: nat): char
    requires d < 10
  {
    '0' + d as char
  }

  function DigitValue(c: char): nat
    requires IsDigit(c)
  {
    (c - '0') as nat
  }

  /** The decimal digits of n, without leading zeros. */
  function Digits(n: nat): string {
    if n < 10 then [DigitChar(n)] else Digits(n / 10) + [DigitChar(n % 10)]
  }

  /** `os << n`. */
  function Print(n: int): string {
    if n < 0 then "-" + Digits(-n) else Digits(n)
  }

  function SkipSpaces(s: string): (t: string)
    ensures |t| <= |s|
  {
    if s != "" && IsSpace(s[0]) then SkipSpaces(s[1..]) else s
  }

  /** Read digits as far as they go, continuing a number whose value so far is acc. */
  function ReadDigits(s: string, acc: nat): (r: (nat, string))
    ensures |r.1| <= |s|
  {
    if s != "" && IsDigit(s[0]) then ReadDigits(s[1..], acc * 10 + DigitValue(s[0])) else (acc, s)
  }

  /**
    `is >> n` for a 64-bit n: the value and the rest of the stream, or None when
    the stream fails (no number, or one that does not fit).
  */
  function Extract(s: string): (r: Option<(int64, string)>)
    ensures r.Some? ==> |r.value.1| < |s|
  {
    var t := SkipSpaces(s);
    var signed := t != "" && (t[0] == '-' || t[0] == '+');
    var u := if signed then t[1..] else t;
    if u == "" || !IsDigit(u[0]) then None
    else
      var (magnitude, rest) := ReadDigits(u[1..], DigitValue(u[0]));
      var n: int := if signed && t[0] == '-' then 0 - magnitude else magnitude;
      if InRange(n) then Some((n, rest)) else None
  }

  /** strtoll(s, NULL, 10): the leading number, saturated, or 0. */
  function Strtoll(s: string): int64 {
    var t := SkipSpaces(s);
    var signed := t != "" && (t[0] == '-' || t[0] == '+');
    var (magnitude, _) := ReadDigits(if signed then t[1..] else t, 0);
    var n: int := if signed && t[0] == '-' then 0 - magnitude else magnitude;
    if n < INT64_MIN then INT64_MIN else if n > INT64_MAX then INT64_MAX else n
  }

  lemma {:induction false} DigitsNonEmpty(n: nat)
    ensures Digits(n) != "" && IsDigit(Digits(n)[0])
  {
    if n >= 10 {
      DigitsNonEmpty(n / 10);
    }
  }

  lemma {:induction false} ReadPrinted(n: nat, tail: string)
    ensures ReadDigits(Digits(n) + tail, 0) == ReadDigits(tail, n)
  {
    if n < 10 {
      assert ([DigitChar(n)] + tail)[1..] == tail;
    } else {
      var d := DigitChar(n % 10);
      ReadPrinted(n / 10, [d] + tail);
      assert Digits(n) + tail == Digits(n / 10) + ([d] + tail);
      assert ([d] + tail)[1..] == tail;
      assert n / 10 * 10 + n % 10 == n;
    }
  }

  lemma ReadWhole(n: nat, tail: string)
    requires tail == "" || !IsDigit(tail[0])
    ensures var s := Digits(n) + tail;
            s != "" && IsDigit(s[0]) && ReadDigits(s[1..], DigitValue(s[0])) == (n, tail)
  {
    DigitsNonEmpty(n);
    ReadPrinted(n, tail);
    assert ReadDigits(tail, n) == (n, tail);
  }

  lemma ExtractUnsigned(n: nat, s: string, tail: string)
    requires InRange(n) && s != "" && IsDigit(s[0]) && ReadDigits(s[1..], DigitValue(s[0])) == (n, tail)
    ensures Extract(s) == Some((n, tail))
  {
  }

  lemma ExtractNegative(n: nat, s: string, tail: string)
    requires InRange(0 - n) && s != "" && IsDigit(s[0]) && ReadDigits(s[1..], DigitValue(s[0])) == (n, tail)
    ensures Extract("-" + s) == Some((0 - n, tail))
  {
  }

  /** Reading back what was printed, before anything that does not continue the number. */
  lemma PrintExtract(n: int64, tail: string)
    requires tail == "" || !IsDigit(tail[0])
    ensures Extract(Print(n) + tail) == Some((n, tail))
  {
    var magnitude: nat := if n < 0 then 0 - n else n;
    var s := Digits(magnitude) + tail;
    ReadWhole(magnitude, tail);
    if n < 0 {
      ExtractNegative(magnitude, s, tail);
      assert Print(n) + tail == "-" + s;
    } else {
      ExtractUnsigned(magnitude, s, tail);
    }
  }

  lemma ExtractAfterSpace(c: char, s: string)
    requires IsSpace(c)
    ensures Extract([c] + s) == Extract(s)
  {
  }

  // ----- What is read, in terms of the characters of the text

  predicate AllDigits(s: string) {
    forall i :: 0 <= i < |s| ==> '0' <= s[i] <= '9'
  }

  predicate AllSpaces(s: string) {
    forall i :: 0 <= i < |s| ==> s[i] in " \t\n\U{000B}\U{000C}\r"
  }

  /** The number that a row of digits stands for. */
  function Number(digits: string): nat
    requires AllDigits(digits)
  {
    if digits == "" then 0
    else Number(digits[..|digits| - 1]) * 10 + (digits[|digits| - 1] as int - '0' as int)
  }

  /** Printing gives the digits of the number, without leading zeros. */
  lemma {:induction false} DigitsAreNumber(n: nat)
    ensures AllDigits(Digits(n)) && Number(Digits(n)) == n
    ensures Digits(n) != "" && (Digits(n)[0] == '0' ==> n == 0)
  {
    var d := DigitChar(n % 10);
    if n < 10 {
      assert [d][..0] == "" && Number([d]) == n;
    } else {
      DigitsAreNumber(n / 10);
      assert (Digits(n / 10) + [d])[..|Digits(n / 10)|] == Digits(n / 10);
    }
  }

  lemma {:induction false} ReadRow(digits: string, rest: string)
    requires AllDigits(digits)
    ensures ReadDigits(digits + rest, 0) == ReadDigits(rest, Number(digits))
    decreases |digits|
  {
    if digits == "" {
      assert digits + rest == rest;
    } else {
      var n := |digits| - 1;
      ReadRow(digits[..n], [digits[n]] + rest);
      assert digits + rest == digits[..n] + ([digits[n]] + rest);
      assert ([digits[n]] + rest)[1..] == rest;
    }
  }

  lemma {:induction false} SkipRow(blanks: string, rest: string)
    requires AllSpaces(blanks) && (rest == "" || rest[0] !in " \t\n\U{000B}\U{000C}\r")
    ensures SkipSpaces(blanks + rest) == rest
  {
    if blanks == "" {
      assert blanks + rest == rest;
    } else {
      assert (blanks + rest)[1..] == blanks[1..] + rest;
      SkipRow(blanks[1..], rest);
    }
  }

  predicate IsSign(sign: string) {
    sign == "" || sign == "-" || sign == "+"
  }

  predicate StartsWithDigit(s: string) {
    s != "" && '0' <= s[0] <= '9'
  }

  lemma NumberRow(digits: string, rest: string)
    requires AllDigits(digits) && digits != "" && !StartsWithDigit(rest)
    ensures var u := digits + rest;
            && u != "" && IsDigit(u[0])
            && ReadDigits(u, 0) == ReadDigits(u[1..], DigitValue(u[0])) == (Number(digits), rest)
  {
    ReadRow(digits, rest);
    assert (digits + rest)[0] == digits[0];
  }

  lemma SignedRead(s: string, sign: string, u: string, magnitude: nat, rest: string)
    requires IsSign(sign) && SkipSpaces(s) == sign + u && u != "" && IsDigit(u[0])
    requires ReadDigits(u, 0) == ReadDigits(u[1..], DigitValue(u[0])) == (magnitude, rest)
    ensures var n: int := if sign == "-" then 0 - magnitude else magnitude;
            && Extract(s) == (if INT64_MIN <= n <= INT64_MAX then Some((n, rest)) else None)
            && Strtoll(s) == if n < INT64_MIN then INT64_MIN else if INT64_MAX < n then INT64_MAX else n
  {
    var t := sign + u;
    assert if sign == "" then t == u else t[0] == sign[0] && t[1..] == u;
  }

  /**
    A text is blanks, a sign or none, and what follows. If digits follow, they are the
    number: extraction takes it unless it is out of range, strtoll the nearest in range.
  */
  lemma NumberIsRead(blanks: string, sign: string, digits: string, rest: string)
    requires AllSpaces(blanks) && IsSign(sign) && AllDigits(digits) && digits != "" && !StartsWithDigit(rest)
    ensures var s := blanks + (sign + (digits + rest));
            var n: int := if sign == "-" then 0 - Number(digits) else Number(digits);
            && Extract(s) == (if INT64_MIN <= n <= INT64_MAX then Some((n, rest)) else None)
            && Strtoll(s) == if n < INT64_MIN then INT64_MIN else if INT64_MAX < n then INT64_MAX else n
  {
    var u := digits + rest;
    NumberRow(digits, rest);
    SkipRow(blanks, sign + u);
    SignedRead(blanks + (sign + u), sign, u, Number(digits), rest);
  }

  /** If none follow, extraction fails and strtoll gives 0. */
  lemma NoNumberIsRead(blanks: string, sign: string, rest: string)
    requires AllSpaces(blanks) && IsSign(sign) && !StartsWithDigit(rest)
    requires sign == "" && rest != "" ==> rest[0] !in " \t\n\U{000B}\U{000C}\r-+"
    ensures var s := blanks + (sign + rest);
            Extract(s) == None && Strtoll(s) == 0
  {
    var t := sign + rest;
    SkipRow(blanks, t);
    assert if sign == "" then t == rest else t[0] == sign[0] && t[1..] == rest;
  }
}
