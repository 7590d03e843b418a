/**
 * The component conversions of lib/timeliness/helpers.rb: meridian hours,
 * two-digit years, month names, microsecond fractions and zone offsets.
 * The clock (`Time.now.year`) and the configured threshold are parameters.
 */
module Helpers {
  import opened Text
  import opened Outcomes

  /** `nil.to_i` is 0; a string goes through `String#to_i`. */
  function IntOf(s: Option<string>): int
  {
    if s.None? then 0 else ToI(s.value)
  }

  // ---------------------------------------------------------------- full_hour

  /** The meridian after its dots are deleted and it is lower-cased is `am`. */
  predicate IsAm(meridian: string) {
    Downcase(Delete(meridian, '.')) == "am"
  }

  /**
   * `full_hour(hour, meridian)`: the 24-hour value of a 12-hour clock
   * reading. An `am` hour of 0 or above 12 raises ArgumentError; any other
   * meridian is read as `pm` and is not range-checked here.
   */
  function FullHour(hour: Option<string>, meridian: Option<string>): (r: Result<int>)
    ensures meridian.None? ==> r == Ok(IntOf(hour))
    ensures meridian.Some? && IsAm(meridian.value) ==>
      (r.Err? <==> IntOf(hour) == 0 || IntOf(hour) > 12)
    ensures meridian.Some? && IsAm(meridian.value) && 1 <= IntOf(hour) <= 12 ==>
      r.Ok? && 0 <= r.value < 12 && r.value % 12 == IntOf(hour) % 12
    ensures meridian.Some? && !IsAm(meridian.value) ==>
      r.Ok? && (1 <= IntOf(hour) <= 12 ==> 12 <= r.value < 24 && r.value % 12 == IntOf(hour) % 12)
    ensures meridian.Some? && !IsAm(meridian.value) && IntOf(hour) == 0 ==> r == Ok(12)
    ensures meridian.Some? && !IsAm(meridian.value) && IntOf(hour) > 12 ==> r.Ok? && r.value > 23
  {
    var h := IntOf(hour);
    if meridian.None? then Ok(h)
    else if IsAm(meridian.value) then
      if h == 0 || h > 12 then Err(MeridianHour) else Ok(if h == 12 then 0 else h)
    else
      Ok(if h == 12 then h else h + 12)
  }

  /** The 12-hour clock reading of a 24-hour hour: the hour 1..12 and whether it is `am`. */
  function TwelveHour(h: nat): (r: (nat, bool))
    requires h < 24
    ensures 1 <= r.0 <= 12
  {
    if h == 0 then (12, true)
    else if h < 12 then (h, true)
    else if h == 12 then (12, false)
    else (h - 12, false)
  }

  /** `full_hour` inverts the 12-hour clock: every hour 0..23 is reached from its reading. */
  lemma FullHourInvertsTwelveHour(h: nat)
    requires h < 24
    ensures var (h12, am) := TwelveHour(h);
      FullHour(Some(NatString(h12)), Some(if am then "am" else "pm")) == Ok(h)
  {
    var (h12, am) := TwelveHour(h);
    ReadHour(h12);
    PlainMeridians();
  }

  /** A 12-hour reading written out in digits is read back with `to_i`. */
  lemma ReadHour(h: nat)
    ensures IntOf(Some(NatString(h))) == h
  {
    ToIOfDigits(NatString(h));
    NatStringValue(h);
  }

  lemma PlainMeridians()
    ensures IsAm("am") && !IsAm("pm")
  {
    assert Delete("am", '.') == "am" && Downcase("am") == "am";
    assert Delete("pm", '.') == "pm" && Downcase("pm") == "pm";
  }

  /** Distinct 12-hour readings give distinct hours, so the conversion is a bijection onto 0..23. */
  lemma FullHourInjective(h1: nat, am1: bool, h2: nat, am2: bool)
    requires 1 <= h1 <= 12 && 1 <= h2 <= 12
    requires FullHour(Some(NatString(h1)), Some(if am1 then "am" else "pm"))
          == FullHour(Some(NatString(h2)), Some(if am2 then "am" else "pm"))
    ensures h1 == h2 && am1 == am2
  {
    ReadHour(h1);
    ReadHour(h2);
    PlainMeridians();
  }

  /** Dotted and upper-case meridians read the same as `am` and `pm`. */
  lemma DottedMeridians()
    ensures IsAm("A.M.") && IsAm("a.m") && IsAm("AM")
    ensures !IsAm("P.M.") && !IsAm("pm")
  {
    assert Delete("A.M.", '.') == "AM";
    assert Delete("a.m", '.') == "am";
    assert Downcase("AM") == "am";
    assert Delete("P.M.", '.') == "PM";
    assert Downcase("PM") == "pm";
  }

  // --------------------------------------------------------- unambiguous_year

  /** The first two digits of the current year, as `Time.now.year.to_s[0..1].to_i` reads them. */
  function Century(currentYear: int): int
  {
    ToI(Take(IntString(currentYear), 2))
  }

  lemma CenturyOfFourDigitYear(currentYear: int)
    requires 1000 <= currentYear <= 9999
    ensures Century(currentYear) == currentYear / 100
  {
    var c := currentYear / 100;
    NatStringLength(currentYear, 3);
    NatStringLength(c, 1);
    var s := NatString(currentYear);
    assert NatString(currentYear / 10) == NatString(c) + [DigitChar((currentYear / 10) % 10)];
    assert s == NatString(c) + [DigitChar((currentYear / 10) % 10)] + [DigitChar(currentYear % 10)];
    assert Take(s, 2) == NatString(c);
    ToIOfDigits(NatString(c));
    NatStringValue(c);
  }

  /**
   * `unambiguous_year(year)`: a year of at most two characters is placed in
   * the current century, or the one before when its value is at least the
   * threshold; a longer year is read as it stands.
   */
  function UnambiguousYear(year: string, currentYear: int, threshold: int): int
  {
    if |year| <= 2 then ShortYear(year, Century(currentYear), threshold) else ToI(year)
  }

  /** A short year placed in `century`, or in the one before when it is at least the threshold. */
  function ShortYear(year: string, century: int, threshold: int): int
  {
    InCentury(if ToI(year) >= threshold then century - 1 else century, year)
  }

  /** Reading a century followed by two digits. */
  lemma CenturyJoin(c: nat, p: string)
    requires AllDigits(p) && |p| == 2
    ensures ToI(NatString(c) + p) == c * 100 + Value(p)
  {
    NatStringValue(c);
    ValueConcat(NatString(c), p);
    assert Pow10(2) == 100;
    ToIOfDigits(NatString(c) + p);
  }

  /** Reading a century followed by a year of at most two digits, left-padded with zeros. */
  lemma CenturyJoinPadded(c: nat, year: string)
    requires AllDigits(year) && |year| <= 2
    ensures InCentury(c, year) == c * 100 + Value(year)
  {
    var padded := RJust(year, 2, '0');
    assert padded == Repeat('0', 2 - |year|) + year;
    ValueLeadingZeros(2 - |year|, year);
    CenturyJoin(c, padded);
  }

  /** `"#{century}#{year.rjust(2, '0')}".to_i`. */
  function InCentury(century: int, year: string): int
  {
    ToI(IntString(century) + RJust(year, 2, '0'))
  }

  /** The two-digit rule in arithmetic: (C - [v >= T]) * 100 + v. */
  lemma UnambiguousYearWindow(year: string, currentYear: int, threshold: int)
    requires AllDigits(year) && |year| <= 2
    requires 1000 <= currentYear <= 9999
    ensures var v := Value(year);
      UnambiguousYear(year, currentYear, threshold)
        == (currentYear / 100 - (if v >= threshold then 1 else 0)) * 100 + v
  {
    CenturyOfFourDigitYear(currentYear);
    ShortYearValue(year, currentYear / 100, threshold);
  }

  lemma ShortYearValue(year: string, century: int, threshold: int)
    requires AllDigits(year) && |year| <= 2 && century >= 1
    ensures var v := Value(year);
      ShortYear(year, century, threshold) == (century - (if v >= threshold then 1 else 0)) * 100 + v
  {
    ToIOfDigits(year);
    var c: nat := century - (if Value(year) >= threshold then 1 else 0);
    ShortYearIn(year, century, threshold, c);
  }

  lemma ShortYearIn(year: string, century: int, threshold: int, c: nat)
    requires AllDigits(year) && |year| <= 2
    requires c == if ToI(year) >= threshold then century - 1 else century
    ensures ShortYear(year, century, threshold) == c * 100 + Value(year)
  {
    CenturyJoinPadded(c, year);
  }

  /** Years longer than two characters pass through `to_i` unchanged. */
  lemma UnambiguousYearLong(year: string, currentYear: int, threshold: int)
    requires AllDigits(year) && |year| > 2
    ensures UnambiguousYear(year, currentYear, threshold) == Value(year)
  {
    ToIOfDigits(year);
  }

  /** Splitting a year into its century and last two digits. */
  lemma CenturyOf(y: int, c: int, t: int)
    requires 0 <= t <= 100
    requires (c - 1) * 100 + t <= y < c * 100 + t
    ensures y % 100 >= t ==> y == (c - 1) * 100 + y % 100
    ensures y % 100 < t ==> y == c * 100 + y % 100
  {
    var q := y / 100;
    var v := y % 100;
    assert y == q * 100 + v;
    assert c - 1 <= q <= c;
  }

  /**
   * The inverse of the two-digit rule: a year inside the hundred-year window
   * that ends just before `C * 100 + T` is recovered from its last two digits.
   */
  lemma TwoDigitYearRoundTrip(y: int, currentYear: int, threshold: int)
    requires 1000 <= currentYear <= 9999 && 0 <= threshold <= 100
    requires (currentYear / 100 - 1) * 100 + threshold <= y < (currentYear / 100) * 100 + threshold
    ensures UnambiguousYear(TwoDigits(y % 100), currentYear, threshold) == y
  {
    UnambiguousYearWindow(TwoDigits(y % 100), currentYear, threshold);
    CenturyOf(y, currentYear / 100, threshold);
  }

  /** The values the source's own tests use: threshold 30 in the year 2023. */
  lemma UnambiguousYearExamples()
    ensures UnambiguousYear(TwoDigits(29), 2023, 30) == 2029
    ensures UnambiguousYear(TwoDigits(30), 2023, 30) == 1930
    ensures UnambiguousYear(TwoDigits(99), 2023, 30) == 1999
    ensures UnambiguousYear(TwoDigits(0), 2023, 30) == 2000
  {
    TwoDigitYearRoundTrip(2029, 2023, 30);
    TwoDigitYearRoundTrip(1930, 2023, 30);
    TwoDigitYearRoundTrip(1999, 2023, 30);
    TwoDigitYearRoundTrip(2000, 2023, 30);
  }

  // -------------------------------------------------------------- month_index

  /** `Date::MONTHNAMES`: a nil placeholder, then the twelve English month names. */
  const MonthNames: seq<Option<string>> := [None,
    Some("January"), Some("February"), Some("March"), Some("April"),
    Some("May"), Some("June"), Some("July"), Some("August"),
    Some("September"), Some("October"), Some("November"), Some("December")]

  /** `Date::ABBR_MONTHNAMES`. */
  const AbbrMonthNames: seq<Option<string>> := [None,
    Some("Jan"), Some("Feb"), Some("Mar"), Some("Apr"), Some("May"), Some("Jun"),
    Some("Jul"), Some("Aug"), Some("Sep"), Some("Oct"), Some("Nov"), Some("Dec")]

  /** The entry is a string equal to `name` ignoring case (`name.casecmp?(entry)`; nil never is). */
  predicate CaseMatches(entry: Option<string>, name: string) {
    entry.Some? && CaseEqual(name, entry.value)
  }

  /** `table.index { |str| name.casecmp?(str) }`. */
  function FirstCaseMatch(table: seq<Option<string>>, name: string): (r: Option<nat>)
    ensures r.Some? ==> r.value < |table| && CaseMatches(table[r.value], name)
    ensures r.Some? ==> forall j :: 0 <= j < r.value ==> !CaseMatches(table[j], name)
    ensures r.None? <==> forall j :: 0 <= j < |table| ==> !CaseMatches(table[j], name)
  {
    if table == [] then None
    else if CaseMatches(table[0], name) then Some(0)
    else
      var rest := FirstCaseMatch(table[1..], name);
      if rest.None? then None else Some(rest.value + 1)
  }

  /**
   * `month_index(month)`: a month containing a digit is read with `to_i`;
   * otherwise its index in the full-name table (more than 3 characters) or
   * in the abbreviation table, ignoring case, or nil when it is in neither.
   */
  function MonthIndex(month: string, names: seq<Option<string>>, abbrNames: seq<Option<string>>): (r: Option<int>)
    ensures ContainsDigit(month) ==> r == Some(ToI(month))
    ensures !ContainsDigit(month) ==>
      var table := if |month| > 3 then names else abbrNames;
      (r.None? <==> forall j :: 0 <= j < |table| ==> !CaseMatches(table[j], month)) &&
      (r.Some? ==> 0 <= r.value < |table| && CaseMatches(table[r.value], month) &&
                   forall j :: 0 <= j < r.value ==> !CaseMatches(table[j], month))
  {
    if ContainsDigit(month) then Some(ToI(month))
    else
      var i := FirstCaseMatch(if |month| > 3 then names else abbrNames, month);
      if i.None? then None else Some(i.value)
  }

  /** With the English tables a month name resolves to 1..12 or to nothing. */
  lemma MonthIndexEnglishRange(month: string)
    requires !ContainsDigit(month)
    ensures var r := MonthIndex(month, MonthNames, AbbrMonthNames);
      r.Some? ==> 1 <= r.value <= 12
  {
  }

  // ------------------------------------------------------------- microseconds

  /**
   * `microseconds(usec)`: the digits read as an exact decimal fraction of a
   * second, in whole microseconds. The code computes this in floating point
   * and truncates, which can come out one lower; this reading is the exact one.
   */
  function Microseconds(usec: string): (r: nat)
    ensures r < 1000000
  {
    var d := LeadingDigits(usec);
    if |d| <= 6 then
      PaddedFractionBound(d);
      Value(d) * Pow10(6 - |d|)
    else
      ValueBound(d[..6]);
      assert Pow10(6) == 1000000;
      Value(d[..6])
  }

  lemma PaddedFractionBound(d: string)
    requires AllDigits(d) && |d| <= 6
    ensures Value(d) * Pow10(6 - |d|) < 1000000
  {
    ValueBound(d);
    MulStrict(Value(d), Pow10(|d|), Pow10(6 - |d|));
    Pow10Add(|d|, 6 - |d|);
    assert Pow10(6) == 1000000;
  }

  lemma MulStrict(a: nat, b: nat, c: nat)
    requires a < b && c >= 1
    ensures a * c < b * c
  {
  }

  lemma {:induction false} Pow10Add(a: nat, b: nat)
    ensures Pow10(a) * Pow10(b) == Pow10(a + b)
  {
    if a > 0 {
      Pow10Add(a - 1, b);
    }
  }

  /** A fraction of one to six digits is right-padded with zeros to six digits. */
  lemma MicrosecondsRightPads(usec: string)
    requires AllDigits(usec) && |usec| <= 6
    ensures Microseconds(usec) == Value(usec + Repeat('0', 6 - |usec|))
  {
    MicrosecondsShort(usec);
    ValueTrailingZeros(usec, 6 - |usec|);
  }

  lemma MicrosecondsShort(usec: string)
    requires AllDigits(usec) && |usec| <= 6
    ensures Microseconds(usec) == Value(usec) * Pow10(6 - |usec|)
  {
    LeadingDigitsOfDigits(usec);
  }

  /** Trailing zeros of the fraction do not change the value. */
  lemma MicrosecondsTrailingZero(usec: string)
    requires AllDigits(usec) && |usec| < 6
    ensures Microseconds(usec + "0") == Microseconds(usec)
  {
    MicrosecondsRightPads(usec);
    MicrosecondsRightPads(usec + "0");
    assert usec + "0" + Repeat('0', 6 - |usec| - 1) == usec + Repeat('0', 6 - |usec|) by {
      assert "0" + Repeat('0', 6 - |usec| - 1) == Repeat('0', 6 - |usec|);
    }
  }

  /** Six zero-padded digits of a microsecond count read back as that count. */
  lemma MicrosecondsRoundTrip(n: nat)
    requires n < 1000000
    ensures Microseconds(RJust(NatString(n), 6, '0')) == n
  {
    NatStringValue(n);
    NatStringShort(n, 5);
    PaddedDigits(NatString(n));
    MicrosecondsOfSix(RJust(NatString(n), 6, '0'));
  }

  lemma PaddedDigits(s: string)
    requires AllDigits(s) && |s| <= 6
    ensures var padded := RJust(s, 6, '0');
      |padded| == 6 && AllDigits(padded) && Value(padded) == Value(s)
  {
    ValueLeadingZeros(6 - |s|, s);
  }

  lemma MicrosecondsOfSix(usec: string)
    requires AllDigits(usec) && |usec| == 6
    ensures Microseconds(usec) == Value(usec)
  {
    LeadingDigitsOfDigits(usec);
  }

  lemma {:induction false} NatStringShort(n: nat, k: nat)
    requires n < Pow10(k + 1)
    ensures |NatString(n)| <= k + 1
  {
    if n >= 10 {
      assert k > 0;
      NatStringShort(n / 10, k - 1);
    }
  }

  lemma MicrosecondsExamples()
    ensures Microseconds("1") == 100000 && Microseconds("01") == 10000
    ensures Microseconds("99") == 990000 && Microseconds("999999") == 999999
  {
    assert LeadingDigits("1") == "1";
    assert LeadingDigits("01") == "01" by { LeadingDigitsOfDigits("01"); }
    assert LeadingDigits("99") == "99" by { LeadingDigitsOfDigits("99"); }
    assert LeadingDigits("999999") == "999999" by { LeadingDigitsOfDigits("999999"); }
    assert Value("01") == 1 by { assert "01"[..1] == "0"; }
    assert Value("99") == 99 by { assert "99"[..1] == "9"; }
    assert Value("999999") == 999999 by {
      assert "999999"[..5] == "99999" && "99999"[..4] == "9999" && "9999"[..3] == "999";
      assert "999"[..2] == "99" && "99"[..1] == "9";
    }
  }

  // -------------------------------------------------------- offset_in_seconds

  /** What `/^([-+])?(\d{2}):?(\d{2})/` captures at the start of an offset. */
  datatype OffsetParts = OffsetParts(negative: bool, hours: nat, minutes: nat)

  predicate DigitsAt(s: string, i: nat, n: nat) {
    i + n <= |s| && AllDigits(s[i..i + n])
  }

  /** The regexp's match at the start of the string, if it matches there. */
  function ParseOffset(s: string): (r: Option<OffsetParts>)
    ensures r.Some? ==> r.value.hours < 100 && r.value.minutes < 100
  {
    var i := if |s| > 0 && (s[0] == '+' || s[0] == '-') then 1 else 0;
    var negative := i == 1 && s[0] == '-';
    if !DigitsAt(s, i, 2) then None
    else
      var hh := Value(s[i..i + 2]);
      ValueBound(s[i..i + 2]);
      if i + 2 < |s| && s[i + 2] == ':' && DigitsAt(s, i + 3, 2) then
        ValueBound(s[i + 3..i + 5]);
        Some(OffsetParts(negative, hh, Value(s[i + 3..i + 5])))
      else if DigitsAt(s, i + 2, 2) then
        ValueBound(s[i + 2..i + 4]);
        Some(OffsetParts(negative, hh, Value(s[i + 2..i + 4])))
      else None
  }

  /**
   * `offset_in_seconds(offset)` as written: sign * (hh * 3600 + mm). The
   * minutes are not multiplied by 60. When the regexp does not match, the
   * captures are nil, `nil.to_f` is 0.0 and the result is 0.
   */
  function OffsetInSecondsAsWritten(offset: string): int
  {
    match ParseOffset(offset)
    case None => 0
    case Some(p) => (if p.negative then -1 else 1) * (p.hours * 3600 + p.minutes)
  }

  /** `offset_in_seconds` as evidently intended: sign * (hh * 3600 + mm * 60). */
  function OffsetInSeconds(offset: string): (r: int)
    ensures ParseOffset(offset).None? ==> r == 0
    ensures ParseOffset(offset).Some? ==>
      var p := ParseOffset(offset).value;
      (p.negative ==> r <= 0) && (!p.negative ==> r >= 0) &&
      (if r < 0 then -r else r) == p.hours * 3600 + p.minutes * 60
  {
    match ParseOffset(offset)
    case None => 0
    case Some(p) => (if p.negative then -1 else 1) * (p.hours * 3600 + p.minutes * 60)
  }

  /** The text `±hh:mm` of a whole-minute offset of less than 100 hours. */
  function OffsetText(seconds: int): string
    requires seconds % 60 == 0 && -360000 < seconds < 360000
  {
    var a := if seconds < 0 then -seconds else seconds;
    (if seconds < 0 then "-" else "+") + TwoDigits(a / 3600) + ":" + TwoDigits((a % 3600) / 60)
  }

  /** The corrected conversion inverts `OffsetText`. */
  lemma OffsetInSecondsRoundTrip(seconds: int)
    requires seconds % 60 == 0 && -360000 < seconds < 360000
    ensures OffsetInSeconds(OffsetText(seconds)) == seconds
  {
    var a := if seconds < 0 then -seconds else seconds;
    var t := OffsetText(seconds);
    var hh := TwoDigits(a / 3600);
    var mm := TwoDigits((a % 3600) / 60);
    assert t[1..3] == hh && t[3] == ':' && t[4..6] == mm;
    var p := ParseOffset(t);
    assert p == Some(OffsetParts(seconds < 0, a / 3600, (a % 3600) / 60));
    assert a == (a / 3600) * 3600 + ((a % 3600) / 60) * 60;
  }

  /** The colon is optional: `+hhmm` reads as `+hh:mm`. */
  lemma OffsetColonOptional(sign: string, hh: nat, mm: nat)
    requires sign == "+" || sign == "-" || sign == ""
    requires hh < 100 && mm < 100
    ensures OffsetInSeconds(sign + TwoDigits(hh) + TwoDigits(mm))
         == OffsetInSeconds(sign + TwoDigits(hh) + ":" + TwoDigits(mm))
    ensures OffsetInSecondsAsWritten(sign + TwoDigits(hh) + TwoDigits(mm))
         == OffsetInSecondsAsWritten(sign + TwoDigits(hh) + ":" + TwoDigits(mm))
  {
    var i := |sign|;
    var a := sign + TwoDigits(hh) + TwoDigits(mm);
    var b := sign + TwoDigits(hh) + ":" + TwoDigits(mm);
    assert a[i..i + 2] == TwoDigits(hh) && a[i + 2..i + 4] == TwoDigits(mm);
    assert b[i..i + 2] == TwoDigits(hh) && b[i + 3..i + 5] == TwoDigits(mm) && b[i + 2] == ':';
    assert !IsDigit(':');
    assert ParseOffset(a) == ParseOffset(b);
  }

  /**
   * The source's tests expect `-05:30` to give -19800 seconds; the code as
   * written gives -18030, while the corrected conversion gives -19800.
   */
  lemma OffsetMinutesCounterexample()
    ensures OffsetInSecondsAsWritten("-05:30") == -18030
    ensures OffsetInSeconds("-05:30") == -19800
  {
    var s := "-05:30";
    assert s[1..3] == "05" && s[4..6] == "30";
    assert Value("05") == 5 by { assert "05"[..1] == "0"; }
    assert Value("30") == 30 by { assert "30"[..1] == "3"; }
    assert ParseOffset(s) == Some(OffsetParts(true, 5, 30));
  }
}
