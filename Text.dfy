/**
 * The string operations the query pipeline relies on: lower-casing, the
 * white-space test of `String.IsNullOrWhiteSpace`, ordinal `String.Contains`,
 * and the text forms of a salary (`decimal.ToString`) and of a start date
 * (`DateTime.ToShortDateString`). Culture rules are not reproduced: lower-casing
 * maps ASCII letters only, and dates use the en-US pattern M/d/yyyy.
 */
module Text {
  import opened Outcomes

  // ---------------------------------------------------------------- lower case

  predicate IsUpperAscii(c: char) {
    'A' <= c <= 'Z'
  }

  /** Lower-cases one character; only 'A'..'Z' change. */
  function ToLowerChar(c: char): (r: char)
    ensures !IsUpperAscii(r)
    ensures IsUpperAscii(c) ==> r as int == c as int + 32
    ensures !IsUpperAscii(c) ==> r == c
  {
    if IsUpperAscii(c) then (c as int + 32) as char else c
  }

  /** `string.ToLower()`, character by character. */
  function ToLower(s: string): (r: string)
  {
    seq(|s|, i requires 0 <= i < |s| => ToLowerChar(s[i]))
  }

  /** Lower-casing keeps the length, leaves no upper-case letter, and lower-casing again changes nothing. */
  lemma ToLowerProperties(s: string)
    ensures |ToLower(s)| == |s|
    ensures forall i :: 0 <= i < |s| ==> !IsUpperAscii(ToLower(s)[i])
    ensures ToLower(ToLower(s)) == ToLower(s)
  {
  }

  // ---------------------------------------------------------------- white space

  /** `Char.IsWhiteSpace`: the space separators, the line and paragraph separators, U+0009..U+000D and U+0085. */
  predicate IsWhiteSpace(c: char) {
    c == ' ' || ('\t' <= c <= '\r') || c == '\U{85}' || c == '\U{A0}' || c == '\U{1680}'
    || ('\U{2000}' <= c <= '\U{200A}') || c == '\U{2028}' || c == '\U{2029}'
    || c == '\U{202F}' || c == '\U{205F}' || c == '\U{3000}'
  }

  /** `String.IsNullOrWhiteSpace` on a string that is not null: empty, or white space only. */
  predicate IsBlank(s: string) {
    forall i :: 0 <= i < |s| ==> IsWhiteSpace(s[i])
  }

  /** Lower-casing never turns a blank term into a non-blank one or back. */
  lemma ToLowerKeepsBlank(s: string)
    ensures IsBlank(ToLower(s)) <==> IsBlank(s)
  {
    assert forall i :: 0 <= i < |s| ==> (IsWhiteSpace(ToLower(s)[i]) <==> IsWhiteSpace(s[i]));
  }

  // ---------------------------------------------------------------- substring

  predicate StartsWith(s: string, t: string) {
    |t| <= |s| && s[..|t|] == t
  }

  /** Ordinal `String.Contains`: t occurs in s, tried at each start position in turn. */
  predicate Contains(s: string, t: string)
    decreases |s|
  {
    StartsWith(s, t) || (|s| > 0 && Contains(s[1..], t))
  }

  /** Contains holds exactly when t occurs at some position of s. */
  lemma {:induction false} ContainsIff(s: string, t: string)
    ensures Contains(s, t) <==> exists i :: 0 <= i <= |s| && StartsWith(s[i..], t)
    decreases |s|
  {
    if StartsWith(s, t) {
      assert s[0..] == s;
    } else if |s| > 0 {
      ContainsIff(s[1..], t);
      if Contains(s[1..], t) {
        var j :| 0 <= j <= |s| - 1 && StartsWith(s[1..][j..], t);
        assert s[1..][j..] == s[j + 1..];
      } else {
        forall i | 0 < i <= |s| ensures !StartsWith(s[i..], t) {
          assert s[1..][i - 1..] == s[i..];
        }
        assert s[0..] == s;
      }
    } else {
      assert s[0..] == s;
    }
  }

  // ---------------------------------------------------------------- numbers

  predicate IsDigit(c: char) {
    '0' <= c <= '9'
  }

  predicate AllDigits(s: string) {
    forall i :: 0 <= i < |s| ==> IsDigit(s[i])
  }

  function DigitChar(d: nat): (c: char)
    requires d < 10
    ensures IsDigit(c) && c as int - '0' as int == d
  {
    ('0' as int + d) as char
  }

  /** Decimal digits of a natural number, without leading zeros. */
  function NatToString(n: nat): (r: string)
    ensures |r| >= 1 && AllDigits(r)
    ensures n > 0 ==> r[0] != '0'
    decreases n
  {
    if n < 10 then [DigitChar(n)] else NatToString(n / 10) + [DigitChar(n % 10)]
  }

  /** The number a string of decimal digits stands for (the empty string stands for 0). */
  function DigitsValue(s: string): nat
    requires AllDigits(s)
  {
    if s == [] then 0 else DigitsValue(s[..|s| - 1]) * 10 + (s[|s| - 1] as int - '0' as int)
  }

  /** Reading back the digits of n gives n. */
  lemma {:induction false} NatToStringRoundTrip(n: nat)
    ensures DigitsValue(NatToString(n)) == n
    decreases n
  {
    if n >= 10 {
      NatToStringRoundTrip(n / 10);
      var r := NatToString(n);
      assert r[..|r| - 1] == NatToString(n / 10);
    }
  }

  /** Leading zeros do not change the value of a digit string. */
  lemma {:induction false} LeadingZeroValue(s: string)
    requires AllDigits(s)
    ensures AllDigits(['0'] + s) && DigitsValue(['0'] + s) == DigitsValue(s)
    decreases |s|
  {
    if s != [] {
      LeadingZeroValue(s[..|s| - 1]);
      assert (['0'] + s)[..|s|] == ['0'] + s[..|s| - 1];
    }
  }

  /** `decimal.ToString()` of a salary held as a whole number: an optional '-' and its decimal digits. */
  function SalaryToString(x: int): (r: string)
  {
    if x < 0 then "-" + NatToString(-x) else NatToString(x)
  }

  /** Reads a salary back from its text: an optional '-' followed by at least one digit. */
  function ParseSalary(s: string): Option<int> {
    if |s| > 1 && s[0] == '-' && AllDigits(s[1..]) then Some(0 - DigitsValue(s[1..]) as int)
    else if |s| > 0 && AllDigits(s) then Some(DigitsValue(s))
    else None
  }

  /** The salary text reads back as the same salary. */
  lemma SalaryToStringRoundTrip(x: int)
    ensures ParseSalary(SalaryToString(x)) == Some(x)
  {
    if x < 0 {
      NatToStringRoundTrip(-x);
      assert SalaryToString(x)[1..] == NatToString(-x);
    } else {
      NatToStringRoundTrip(x);
    }
  }

  // ---------------------------------------------------------------- dates

  /** Pads a digit string on the left with '0' up to `width` characters. */
  function PadZeros(s: string, width: nat): (r: string)
    requires AllDigits(s)
    ensures AllDigits(r) && |r| >= width && |r| >= |s|
    ensures DigitsValue(r) == DigitsValue(s)
    decreases width - |s|
  {
    if |s| >= width then s
    else
      LeadingZeroValue(s);
      PadZeros(['0'] + s, width)
  }

  /** `DateTime.ToShortDateString()` under the en-US pattern M/d/yyyy (the time of day is not shown). */
  function ShortDate(year: nat, month: nat, day: nat): string {
    NatToString(month) + "/" + NatToString(day) + "/" + PadZeros(NatToString(year), 4)
  }

  /** Splits a string at every occurrence of `sep`. */
  function Split(s: string, sep: char): (r: seq<string>)
    ensures |r| >= 1
  {
    if s == [] then [[]]
    else
      var rest := Split(s[1..], sep);
      if s[0] == sep then [[]] + rest else [[s[0]] + rest[0]] + rest[1..]
  }

  lemma {:induction false} SplitNoSeparator(a: string, sep: char)
    requires forall i :: 0 <= i < |a| ==> a[i] != sep
    ensures Split(a, sep) == [a]
  {
    if a != [] {
      SplitNoSeparator(a[1..], sep);
      assert [a[0]] + a[1..] == a;
    }
  }

  lemma {:induction false} SplitAtSeparator(a: string, sep: char, b: string)
    requires forall i :: 0 <= i < |a| ==> a[i] != sep
    ensures Split(a + [sep] + b, sep) == [a] + Split(b, sep)
  {
    if a == [] {
      assert a + [sep] + b == [sep] + b;
      assert ([sep] + b)[1..] == b;
    } else {
      SplitAtSeparator(a[1..], sep, b);
      assert (a + [sep] + b)[1..] == a[1..] + [sep] + b;
      assert [a[0]] + a[1..] == a;
    }
  }

  /** Reads a date back from M/d/yyyy text as (year, month, day). */
  function ParseShortDate(s: string): Option<(nat, nat, nat)> {
    var parts := Split(s, '/');
    if |parts| == 3 && AllDigits(parts[0]) && AllDigits(parts[1]) && AllDigits(parts[2])
    then Some((DigitsValue(parts[2]), DigitsValue(parts[0]), DigitsValue(parts[1])))
    else None
  }

  /** A digit string holds no separator. */
  lemma DigitsHaveNoSlash(s: string)
    requires AllDigits(s)
    ensures forall i :: 0 <= i < |s| ==> s[i] != '/'
  {
  }

  /** Three separator-free fields joined by the separator split back into those three. */
  lemma SplitThree(a: string, b: string, c: string, sep: char)
    requires forall i :: 0 <= i < |a| ==> a[i] != sep
    requires forall i :: 0 <= i < |b| ==> b[i] != sep
    requires forall i :: 0 <= i < |c| ==> c[i] != sep
    ensures Split(a + [sep] + (b + [sep] + c), sep) == [a, b, c]
  {
    SplitAtSeparator(a, sep, b + [sep] + c);
    SplitAtSeparator(b, sep, c);
    SplitNoSeparator(c, sep);
  }

  /** The short date text reads back as the same year, month and day. */
  lemma ShortDateRoundTrip(year: nat, month: nat, day: nat)
    ensures ParseShortDate(ShortDate(year, month, day)) == Some((year, month, day))
  {
    var m, d, y := NatToString(month), NatToString(day), PadZeros(NatToString(year), 4);
    DigitsHaveNoSlash(m);
    DigitsHaveNoSlash(d);
    DigitsHaveNoSlash(y);
    assert ShortDate(year, month, day) == m + ['/'] + (d + ['/'] + y);
    SplitThree(m, d, y, '/');
    var parts := Split(ShortDate(year, month, day), '/');
    assert parts == [m, d, y];
    NatToStringRoundTrip(month);
    NatToStringRoundTrip(day);
    NatToStringRoundTrip(year);
    assert DigitsValue(parts[0]) == month && DigitsValue(parts[1]) == day && DigitsValue(parts[2]) == year;
  }
}
