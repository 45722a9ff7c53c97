/** The timestamp embedded in a post's permalink: the search for
    `\d{4}-\d{2}-\d{2}T\d{2}:\d{2}:\d{2}\.\d{3}Z` and `_parse_timestamp`, which
    rewrites a valid one as `YYYY-MM-DD HH:MM UTC` and hands back anything
    `datetime` refuses unchanged. */
module Timestamps {
  import opened Wrappers

  /** An ASCII decimal digit. */
  predicate IsDigit(c: char) {
    '0' <= c <= '9'
  }

  /** Every character of `s` is a digit. */
  predicate AllDigits(s: string) {
    forall k :: 0 <= k < |s| ==> IsDigit(s[k])
  }

  /** `s` holds `n` digits starting at `i`. */
  predicate DigitsAt(s: string, i: nat, n: nat) {
    i + n <= |s| && forall k :: i <= k < i + n ==> IsDigit(s[k])
  }

  /** The search pattern, piece by piece: `YYYY-MM-DDThh:mm:ss.mmmZ`. */
  predicate IsTimestampText(s: string) {
    && |s| == 24
    && DigitsAt(s, 0, 4) && s[4] == '-'
    && DigitsAt(s, 5, 2) && s[7] == '-'
    && DigitsAt(s, 8, 2) && s[10] == 'T'
    && DigitsAt(s, 11, 2) && s[13] == ':'
    && DigitsAt(s, 14, 2) && s[16] == ':'
    && DigitsAt(s, 17, 2) && s[19] == '.'
    && DigitsAt(s, 20, 3) && s[23] == 'Z'
  }

  /** The shape of a reformatted timestamp: `YYYY-MM-DD HH:MM UTC`. */
  predicate IsDisplayText(s: string) {
    && |s| == 20
    && DigitsAt(s, 0, 4) && s[4] == '-'
    && DigitsAt(s, 5, 2) && s[7] == '-'
    && DigitsAt(s, 8, 2) && s[10] == ' '
    && DigitsAt(s, 11, 2) && s[13] == ':'
    && DigitsAt(s, 14, 2) && s[16..] == " UTC"
  }

  /** The value of one digit. */
  function DigitValue(c: char): (v: nat)
    requires IsDigit(c)
    ensures v < 10
  {
    c as int - '0' as int
  }

  /** The digit character for `d`. */
  function DigitChar(d: nat): (c: char)
    requires d < 10
    ensures IsDigit(c) && DigitValue(c) == d
  {
    ('0' as int + d) as char
  }

  /** `10` to the power `w`. */
  function Pow10(w: nat): (p: nat)
    ensures p >= 1
  {
    if w == 0 then 1 else 10 * Pow10(w - 1)
  }

  /** The number a string of decimal digits spells (`int()` on it). */
  function DigitsValue(s: string): (v: nat)
    requires AllDigits(s)
    ensures v < Pow10(|s|)
  {
    if s == [] then 0 else DigitsValue(s[..|s| - 1]) * 10 + DigitValue(s[|s| - 1])
  }

  /** `n` written with exactly `width` digits, zero-padded on the left, as
      `strftime` writes `%m`, `%d`, `%H`, `%M` and a four-digit `%Y`. */
  function Pad(n: nat, width: nat): (r: string)
    ensures |r| == width && AllDigits(r)
  {
    if width == 0 then [] else Pad(n / 10, width - 1) + [DigitChar(n % 10)]
  }

  /** Printing what was parsed gives back the digits. */
  lemma {:induction false} PadDigitsValue(s: string)
    requires AllDigits(s)
    ensures Pad(DigitsValue(s), |s|) == s
  {
    if s != [] {
      var init := s[..|s| - 1];
      var v := DigitsValue(s);
      assert AllDigits(init);
      PadDigitsValue(init);
      DivModTen(DigitsValue(init), DigitValue(s[|s| - 1]));
      assert s == init + [s[|s| - 1]];
    }
  }

  /** Appending a digit `d` to the decimal form of `a`, read back. */
  lemma DivModTen(a: nat, d: nat)
    requires d < 10
    ensures (a * 10 + d) / 10 == a && (a * 10 + d) % 10 == d
  {
  }

  /** Parsing what was printed gives back the number, when it fits. */
  lemma {:induction false} DigitsValuePad(n: nat, width: nat)
    requires n < Pow10(width)
    ensures DigitsValue(Pad(n, width)) == n
  {
    if width > 0 {
      var r := Pad(n, width);
      DigitsValuePad(n / 10, width - 1);
      assert r[..|r| - 1] == Pad(n / 10, width - 1);
    }
  }

  /** A calendar date and time of day with milliseconds. */
  datatype DateTime = DateTime(year: nat, month: nat, day: nat, hour: nat, minute: nat, second: nat, millisecond: nat)

  /** The numbers the pattern's digit groups spell. */
  function Fields(s: string): (dt: DateTime)
    requires IsTimestampText(s)
    ensures dt.year < 10000 && dt.month < 100 && dt.day < 100
    ensures dt.hour < 100 && dt.minute < 100 && dt.second < 100 && dt.millisecond < 1000
  {
    DateTime(DigitsValue(s[0..4]), DigitsValue(s[5..7]), DigitsValue(s[8..10]),
             DigitsValue(s[11..13]), DigitsValue(s[14..16]), DigitsValue(s[17..19]),
             DigitsValue(s[20..23]))
  }

  /** Gregorian leap years. */
  predicate IsLeapYear(y: nat) {
    y % 4 == 0 && (y % 100 != 0 || y % 400 == 0)
  }

  /** Days in month `m` of year `y`. */
  function DaysInMonth(y: nat, m: nat): (d: nat)
    requires 1 <= m <= 12
    ensures 28 <= d <= 31
  {
    if m == 2 then (if IsLeapYear(y) then 29 else 28)
    else if m == 4 || m == 6 || m == 9 || m == 11 then 30
    else 31
  }

  /** What `datetime` accepts: years from 1, months 1 to 12, a day that
      exists in that month, and a time of day without leap seconds. */
  predicate IsValidDateTime(dt: DateTime) {
    && 1 <= dt.year
    && 1 <= dt.month <= 12
    && 1 <= dt.day <= DaysInMonth(dt.year, dt.month)
    && dt.hour < 24
    && dt.minute < 60
    && dt.second < 60
  }

  /** `_parse_timestamp` on a text the search found: a valid date-time is
      rewritten as `strftime('%Y-%m-%d %H:%M UTC')` would, which keeps the
      input's date and its hours and minutes; an invalid one is returned as
      it came. */
  function ParseTimestamp(s: string): (r: string)
    requires IsTimestampText(s)
    ensures IsValidDateTime(Fields(s)) ==> r == s[..10] + " " + s[11..16] + " UTC" && IsDisplayText(r)
    ensures !IsValidDateTime(Fields(s)) ==> r == s
    ensures r == s <==> !IsValidDateTime(Fields(s))
  {
    var dt := Fields(s);
    if IsValidDateTime(dt) then
      var r := Pad(dt.year, 4) + "-" + Pad(dt.month, 2) + "-" + Pad(dt.day, 2) + " "
               + Pad(dt.hour, 2) + ":" + Pad(dt.minute, 2) + " UTC";
      ReformatKeepsDigits(s);
      r
    else
      s
  }

  /** The reformatted date and time are the input's own digits. */
  lemma ReformatKeepsDigits(s: string)
    requires IsTimestampText(s)
    ensures var dt := Fields(s);
      && Pad(dt.year, 4) + "-" + Pad(dt.month, 2) + "-" + Pad(dt.day, 2) + " "
         + Pad(dt.hour, 2) + ":" + Pad(dt.minute, 2) + " UTC"
         == s[..10] + " " + s[11..16] + " UTC"
      && IsDisplayText(s[..10] + " " + s[11..16] + " UTC")
  {
    PadFields(s);
    var y, mo, d, h, mi := s[0..4], s[5..7], s[8..10], s[11..13], s[14..16];
    SplitDateTime(s);
    DisplayShape(y, mo, d, h, mi);
  }

  /** Printing each parsed field back gives the field's digits. */
  lemma PadFields(s: string)
    requires IsTimestampText(s)
    ensures var dt := Fields(s);
      && Pad(dt.year, 4) == s[0..4] && Pad(dt.month, 2) == s[5..7] && Pad(dt.day, 2) == s[8..10]
      && Pad(dt.hour, 2) == s[11..13] && Pad(dt.minute, 2) == s[14..16]
  {
    PadDigitsValue(s[0..4]);
    PadDigitsValue(s[5..7]);
    PadDigitsValue(s[8..10]);
    PadDigitsValue(s[11..13]);
    PadDigitsValue(s[14..16]);
  }

  /** The date part and the hours-and-minutes part of a timestamp, cut at
      their separators. */
  lemma SplitDateTime(s: string)
    requires IsTimestampText(s)
    ensures s[..10] == s[0..4] + "-" + s[5..7] + "-" + s[8..10]
    ensures s[11..16] == s[11..13] + ":" + s[14..16]
  {
    assert s[..10] == s[0..4] + s[4..5] + s[5..7] + s[7..8] + s[8..10];
    assert s[11..16] == s[11..13] + s[13..14] + s[14..16];
  }

  /** Date and time digits laid out as `YYYY-MM-DD HH:MM UTC` have the
      display shape. */
  lemma DisplayShape(y: string, mo: string, d: string, h: string, mi: string)
    requires |y| == 4 && |mo| == 2 && |d| == 2 && |h| == 2 && |mi| == 2
    requires AllDigits(y) && AllDigits(mo) && AllDigits(d) && AllDigits(h) && AllDigits(mi)
    ensures IsDisplayText(y + "-" + mo + "-" + d + " " + (h + ":" + mi) + " UTC")
  {
    var r := y + "-" + mo + "-" + d + " " + (h + ":" + mi) + " UTC";
    assert r[0..4] == y && r[5..7] == mo && r[8..10] == d && r[11..13] == h && r[14..16] == mi;
    assert r[16..] == " UTC";
  }

  /** The value of a two-digit string. */
  lemma TwoDigitsValue(s: string)
    requires |s| == 2 && AllDigits(s)
    ensures DigitsValue(s) == 10 * DigitValue(s[0]) + DigitValue(s[1])
  {
    assert s[..1][..0] == [];
  }

  /** The value of a four-digit string. */
  lemma FourDigitsValue(s: string)
    requires |s| == 4 && AllDigits(s)
    ensures DigitsValue(s) == 1000 * DigitValue(s[0]) + 100 * DigitValue(s[1]) + 10 * DigitValue(s[2]) + DigitValue(s[3])
  {
    var s3 := s[..3];
    var s2 := s3[..2];
    TwoDigitsValue(s2);
  }

  /** A timestamp pattern match at `p` in `h`. */
  predicate TimestampAt(h: string, p: nat) {
    p + 24 <= |h| && IsTimestampText(h[p..p + 24])
  }

  /** Leftmost match of the timestamp pattern at or after `i`. */
  function FindTimestampFrom(h: string, i: nat): (m: Option<nat>)
    ensures m.Some? ==> i <= m.value && TimestampAt(h, m.value)
    ensures m.Some? ==> forall p :: i <= p < m.value ==> !TimestampAt(h, p)
    ensures m.None? ==> forall p :: i <= p ==> !TimestampAt(h, p)
    decreases |h| - i
  {
    if i + 24 > |h| then None
    else if IsTimestampText(h[i..i + 24]) then Some(i)
    else FindTimestampFrom(h, i + 1)
  }

  /** `re.search` for the timestamp pattern: the leftmost match, if any. */
  function SearchTimestamp(h: string): (m: Option<string>)
    ensures m.Some? ==> IsTimestampText(m.value)
    ensures m.Some? <==> exists p :: TimestampAt(h, p)
  {
    match FindTimestampFrom(h, 0)
    case Some(i) => Some(h[i..i + 24])
    case None => None
  }

  /** The value of the two digits at `i`. */
  lemma TwoDigitsAt(s: string, i: nat)
    requires DigitsAt(s, i, 2)
    ensures AllDigits(s[i..i + 2])
    ensures DigitsValue(s[i..i + 2]) == 10 * DigitValue(s[i]) + DigitValue(s[i + 1])
  {
    var t := s[i..i + 2];
    assert t[0] == s[i] && t[1] == s[i + 1];
    TwoDigitsValue(t);
  }

  /** The value of the four digits at `i`. */
  lemma FourDigitsAt(s: string, i: nat)
    requires DigitsAt(s, i, 4)
    ensures AllDigits(s[i..i + 4])
    ensures DigitsValue(s[i..i + 4]) ==
      1000 * DigitValue(s[i]) + 100 * DigitValue(s[i + 1]) + 10 * DigitValue(s[i + 2]) + DigitValue(s[i + 3])
  {
    var t := s[i..i + 4];
    assert t[0] == s[i] && t[1] == s[i + 1] && t[2] == s[i + 2] && t[3] == s[i + 3];
    FourDigitsValue(t);
  }

  /** The search pattern checked character by character. */
  lemma TimestampByChars(s: string)
    requires |s| == 24
    requires IsDigit(s[0]) && IsDigit(s[1]) && IsDigit(s[2]) && IsDigit(s[3]) && s[4] == '-'
    requires IsDigit(s[5]) && IsDigit(s[6]) && s[7] == '-' && IsDigit(s[8]) && IsDigit(s[9]) && s[10] == 'T'
    requires IsDigit(s[11]) && IsDigit(s[12]) && s[13] == ':' && IsDigit(s[14]) && IsDigit(s[15]) && s[16] == ':'
    requires IsDigit(s[17]) && IsDigit(s[18]) && s[19] == '.'
    requires IsDigit(s[20]) && IsDigit(s[21]) && IsDigit(s[22]) && s[23] == 'Z'
    ensures IsTimestampText(s)
  {
  }

  /** The date fields in terms of the digits that spell them. */
  lemma DateByDigits(s: string)
    requires IsTimestampText(s)
    ensures Fields(s).year ==
      1000 * DigitValue(s[0]) + 100 * DigitValue(s[1]) + 10 * DigitValue(s[2]) + DigitValue(s[3])
    ensures Fields(s).month == 10 * DigitValue(s[5]) + DigitValue(s[6])
    ensures Fields(s).day == 10 * DigitValue(s[8]) + DigitValue(s[9])
  {
    FourDigitsAt(s, 0);
    TwoDigitsAt(s, 5);
    TwoDigitsAt(s, 8);
  }

  /** The time fields in terms of the digits that spell them. */
  lemma TimeByDigits(s: string)
    requires IsTimestampText(s)
    ensures Fields(s).hour == 10 * DigitValue(s[11]) + DigitValue(s[12])
    ensures Fields(s).minute == 10 * DigitValue(s[14]) + DigitValue(s[15])
    ensures Fields(s).second == 10 * DigitValue(s[17]) + DigitValue(s[18])
  {
    TwoDigitsAt(s, 11);
    TwoDigitsAt(s, 14);
    TwoDigitsAt(s, 17);
  }

  /** What the search returns is the text at the leftmost match. */
  lemma SearchIsLeftmost(h: string)
    requires SearchTimestamp(h).Some?
    ensures exists p: nat :: && TimestampAt(h, p)
                        && (forall q: nat :: q < p ==> !TimestampAt(h, q))
                        && SearchTimestamp(h).value == h[p..p + 24]
  {
    var p := FindTimestampFrom(h, 0).value;
    assert forall q: nat :: q < p ==> !TimestampAt(h, q);
    assert TimestampAt(h, p) && SearchTimestamp(h).value == h[p..p + 24];
  }

  /** The fields of the timestamp `2023-02-29T10:00:00.000Z`. */
  lemma InvalidExampleFields(s: string)
    requires s == "2023-02-29T10:00:00.000Z"
    ensures IsTimestampText(s)
    ensures Fields(s).year == 2023 && Fields(s).month == 2 && Fields(s).day == 29
  {
    TimestampByChars(s);
    DateByDigits(s);
  }

  /** A date that does not exist (29 February of a common year) is handed
      back unchanged. */
  lemma InvalidDateKept(s: string)
    requires s == "2023-02-29T10:00:00.000Z"
    ensures IsTimestampText(s) && ParseTimestamp(s) == s
  {
    InvalidExampleFields(s);
    assert !IsLeapYear(2023);
  }

  /** The example timestamp `2024-01-01T12:00:00.000Z` has the pattern's
      shape. */
  lemma ExampleShape(s: string)
    requires s == "2024-01-01T12:00:00.000Z"
    ensures IsTimestampText(s)
  {
    TimestampByChars(s);
  }

  /** The date fields of the example timestamp. */
  lemma ExampleDate(s: string)
    requires s == "2024-01-01T12:00:00.000Z"
    ensures IsTimestampText(s)
    ensures Fields(s).year == 2024 && Fields(s).month == 1 && Fields(s).day == 1
  {
    ExampleShape(s);
    DateByDigits(s);
  }

  /** The time fields of the example timestamp. */
  lemma ExampleTime(s: string)
    requires s == "2024-01-01T12:00:00.000Z"
    ensures IsTimestampText(s)
    ensures Fields(s).hour == 12 && Fields(s).minute == 0 && Fields(s).second == 0
  {
    ExampleShape(s);
    TimeByDigits(s);
  }

  /** A valid timestamp loses its seconds and milliseconds and gains ` UTC`. */
  lemma ValidDateReformatted(s: string)
    requires s == "2024-01-01T12:00:00.000Z"
    ensures IsTimestampText(s) && ParseTimestamp(s) == "2024-01-01 12:00 UTC"
  {
    ExampleDate(s);
    ExampleTime(s);
    assert IsValidDateTime(Fields(s));
    assert s[..10] == "2024-01-01";
    assert s[11..16] == "12:00";
  }
}
