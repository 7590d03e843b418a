/**
 * The component array after matching, as `Timeliness::Parser.parse`
 * (lib/timeliness/parser.rb) reshapes it for the requested type, and the
 * date and time gates of `make_time`, `fast_date_valid_with_fallback` and
 * `time_with_datetime_fallback`.
 */
module TimeArrays {
  import Text
  import Helpers
  import opened Outcomes
  import opened Candidates

  // ------------------------------------------------------------ make_time

  /** The proleptic Julian rule before the 1582 reform, the Gregorian one after. */
  predicate LeapYear(y: int) {
    if y < 1583 then y % 4 == 0 else y % 4 == 0 && (y % 100 != 0 || y % 400 == 0)
  }

  function DaysInMonth(y: int, m: int): (n: int)
    requires 1 <= m <= 12
    ensures 28 <= n <= 31
    ensures m == 2 ==> (n == 29 <==> LeapYear(y))
  {
    if m == 2 then (if LeapYear(y) then 29 else 28)
    else if m == 4 || m == 6 || m == 9 || m == 11 then 30
    else 31
  }

  /**
   * `Date.valid_civil?(year, month, day)` for a positive day: a negative
   * month counts back from the end of the year, and the ten days dropped
   * by the 1582 reform do not exist.
   */
  predicate ValidCivil(y: int, m: int, d: int) {
    var mm := if m < 0 then m + 13 else m;
    1 <= mm <= 12 && 1 <= d <= DaysInMonth(y, mm) && !(y == 1582 && mm == 10 && 5 <= d <= 14)
  }

  /**
   * `fast_date_valid_with_fallback` as written: `nil < 13` and `nil < 29`
   * raise NoMethodError, an error `make_time` does not rescue.
   */
  function FastDateValidAsWritten(year: Option<int>, month: Option<int>, day: Option<int>): (r: Result<bool>)
    ensures r.Err? ==> r.error == NilReceiver
    ensures r.Err? <==> month.None? || (month.value < 13 && day.None?)
  {
    if month.None? then Err(NilReceiver)
    else if month.value >= 13 then Ok(false)
    else if day.None? then Err(NilReceiver)
    else if day.value < 29 then Ok(true)
    else Ok(year.Some? && ValidCivil(year.value, month.value, day.value))
  }

  /**
   * The date gate as evidently intended: a missing month or day is an
   * invalid date, so `parse` answers nil instead of raising.
   */
  function FastDateValid(year: Option<int>, month: Option<int>, day: Option<int>): (r: bool)
    ensures r ==> month.Some? && month.value < 13 && day.Some?
    ensures month.Some? && day.Some? ==> Ok(r) == FastDateValidAsWritten(year, month, day)
  {
    month.Some? && month.value < 13 && day.Some? &&
    (day.value < 29 || (year.Some? && ValidCivil(year.value, month.value, day.value)))
  }

  /**
   * The fast check is exact for a real month and a positive day: day 28
   * and below is valid in every month, so the full check is only needed
   * from 29 on.
   */
  lemma FastDateValidExact(y: int, m: int, d: int)
    requires 1 <= m <= 12 && 1 <= d
    requires !(y == 1582 && m == 10 && 5 <= d <= 14)
    ensures FastDateValid(Some(y), Some(m), Some(d)) == ValidCivil(y, m, d)
  {
  }

  /** Day 29 of February passes exactly in leap years, and month 13 never does. */
  lemma FastDateValidFebruary(y: int, m: int, d: int)
    ensures FastDateValid(Some(y), Some(2), Some(29)) <==> LeapYear(y)
    ensures m >= 13 ==> !FastDateValid(Some(y), Some(m), Some(d))
  {
  }

  /**
   * The input that shows the discrepancy: `parse("1 Foo 2000", :date)`
   * matches `d mmm yy`, `month_index("Foo")` is nil, and the gate as
   * written raises where the corrected one rejects the date.
   */
  lemma NilMonthCounterexample()
    ensures Helpers.MonthIndex("Foo", Helpers.MonthNames, Helpers.AbbrMonthNames).None?
    ensures FastDateValidAsWritten(Some(2000), None, Some(1)) == Err(NilReceiver)
    ensures !FastDateValid(Some(2000), None, Some(1))
  {
    assert !Text.ContainsDigit("Foo") by {
      assert !Text.IsDigit('F') && !Text.IsDigit('o');
    }
    assert !Text.CaseEqual("Foo", "Jan");
    var abbr := Helpers.AbbrMonthNames;
    forall j | 0 <= j < |abbr|
      ensures !Helpers.CaseMatches(abbr[j], "Foo")
    {
      if j > 0 {
        assert |abbr[j].value| == 3;
        assert abbr[j].value[0] != 'F' || abbr[j].value[1] != 'o';
        assert Text.Downcase("Foo")[0] == 'f' && Text.Downcase("Foo")[1] == 'o';
      }
    }
  }

  /** `options[:zone]`: none (`Timeliness.default_timezone` is used), `:utc`, `:local`, `:current` or a zone name. */
  datatype Zone = DefaultZone | Utc | Local | Current | Named(name: string)

  /**
   * What `parse` returns: the non-String value itself, nil, the arguments
   * `::Time.send(utc_or_local, ...)` is called with, or the slots handed
   * to `Time.zone.local` in a named or the current zone.
   */
  datatype Outcome =
    | Unchanged
    | NoTime
    | LocalTime(zone: Zone, args: seq<int>)
    | ZoneTime(zone: Zone, slots: seq<Option<int>>)

  /** `time_array.compact`: the present values, in order. */
  function Compact(a: seq<Option<int>>): (r: seq<int>)
    ensures |r| <= |a|
  {
    if a == [] then [] else (if a[0].Some? then [a[0].value] else []) + Compact(a[1..])
  }

  /** `compact` works slot by slot: a nil in the middle lets the later values move up. */
  lemma {:induction false} CompactAppend(a: seq<Option<int>>, b: seq<Option<int>>)
    ensures Compact(a + b) == Compact(a) + Compact(b)
  {
    if a != [] {
      assert (a + b)[0] == a[0];
      assert (a + b)[1..] == a[1..] + b;
      CompactAppend(a[1..], b);
    } else {
      assert a + b == b;
    }
  }

  /** `compact` keeps exactly the present values. */
  lemma {:induction false} CompactMembers(a: seq<Option<int>>, x: int)
    ensures x in Compact(a) <==> Some(x) in a
  {
    if a != [] {
      CompactMembers(a[1..], x);
      assert a == [a[0]] + a[1..];
    }
  }

  /** A present value is kept and a nil dropped. */
  lemma CompactSingle(x: int)
    ensures Compact([Some(x)]) == [x] && Compact([None]) == []
  {
  }

  /** `[2000, nil, 1]` compacts to `[2000, 1]`: the day moves into the month's place. */
  lemma CompactShiftsOverNil()
    ensures Compact([Some(2000), None, Some(1)]) == [2000, 1]
  {
    CompactAppend([Some(2000)], [None, Some(1)]);
    CompactAppend([None], [Some(1)]);
    CompactSingle(2000);
    CompactSingle(1);
    assert [Some(2000)] + [None, Some(1)] == [Some(2000), None, Some(1)];
    assert [None] + [Some(1)] == [None, Some(1)];
  }

  lemma {:induction false} CompactPresent(vs: seq<int>, rest: seq<Option<int>>)
    ensures Compact(Somes(vs) + rest) == vs + Compact(rest)
  {
    if vs != [] {
      var a := Somes(vs) + rest;
      assert a[0] == Some(vs[0]);
      assert a[1..] == Somes(vs[1..]) + rest;
      CompactPresent(vs[1..], rest);
      assert Compact(a) == [vs[0]] + Compact(a[1..]);
      assert vs == [vs[0]] + vs[1..];
    } else {
      assert Somes(vs) + rest == rest;
    }
  }

  lemma {:induction false} CompactAbsent(n: nat)
    ensures Compact(Nones(n)) == []
  {
    if n > 0 {
      assert Nones<int>(n)[1..] == Nones<int>(n - 1);
      CompactAbsent(n - 1);
    }
  }

  /** The parameter defaults `month=1, day=1, hour=0, min=0, sec=0, usec=0`. */
  const Defaults: seq<int> := [0, 1, 1, 0, 0, 0, 0]

  /** The values of the seven parameters after `year` when `time_with_datetime_fallback` gets `c`. */
  function WithDefaults(c: seq<int>): (r: seq<int>)
    requires 1 <= |c|
    ensures |r| == (if |c| >= 7 then |c| else 7) && r[..|c|] == c
    ensures forall i :: |c| <= i < 7 ==> r[i] == Defaults[i]
  {
    if |c| >= 7 then c else c + Defaults[|c|..]
  }

  /**
   * `make_time(time_array, zone)` with the corrected date gate. For nil,
   * `:utc` and `:local` the present values are compacted, padded with the
   * parameter defaults and rejected when the hour, minute or second is out
   * of range; more than seven values, or fewer than three slots, are an
   * ArgumentError, which is rescued.
   */
  function MakeTime(a: seq<Option<int>>, zone: Zone): (r: Outcome)
    ensures r.LocalTime? ==> r.zone == zone && |r.args| == 7 && r.args[3] <= 23 && r.args[4] <= 59 && r.args[5] <= 59
    ensures r.ZoneTime? ==> r == ZoneTime(zone, a) && (zone.Current? || zone.Named?)
    ensures r != Unchanged
    ensures |a| >= 3 && !FastDateValid(a[0], a[1], a[2]) ==> r == NoTime
  {
    if |a| < 3 || !FastDateValid(a[0], a[1], a[2]) then NoTime
    else if zone.Current? || zone.Named? then ZoneTime(zone, a)
    else
      var c := Compact(a);
      if c == [] || |c| > 7 then NoTime
      else
        var args := WithDefaults(c);
        if args[3] > 23 || args[4] > 59 || args[5] > 59 then NoTime else LocalTime(zone, args)
  }

  /**
   * With all seven components present, the result is a time exactly when
   * the date is valid and the hour, minute and second are in range.
   */
  lemma MakeTimeComplete(vs: seq<int>, zone: Zone)
    requires |vs| == 7 && 1 <= vs[1] <= 12 && 1 <= vs[2]
    requires !(vs[0] == 1582 && vs[1] == 10 && 5 <= vs[2] <= 14)
    requires zone == DefaultZone || zone == Utc || zone == Local
    ensures MakeTime(Somes(vs), zone) ==
      if !ValidCivil(vs[0], vs[1], vs[2]) || vs[3] > 23 || vs[4] > 59 || vs[5] > 59 then NoTime
      else LocalTime(zone, vs)
  {
    CompactPresent(vs, []);
    assert Somes(vs) + [] == Somes(vs) && vs + [] == vs;
    FastDateValidExact(vs[0], vs[1], vs[2]);
  }

  /** Missing trailing components default to 1/1/0/0/0/0 before the time gate. */
  lemma MakeTimeDefaults(vs: seq<int>, zone: Zone)
    requires 3 <= |vs| <= 7 && FastDateValid(Some(vs[0]), Some(vs[1]), Some(vs[2]))
    requires zone == DefaultZone || zone == Utc || zone == Local
    ensures var args := vs + Defaults[|vs|..];
      MakeTime(Somes(vs) + Nones(7 - |vs|), zone) ==
        if args[3] > 23 || args[4] > 59 || args[5] > 59 then NoTime else LocalTime(zone, args)
  {
    CompactPresent(vs, Nones(7 - |vs|));
    CompactAbsent(7 - |vs|);
    assert vs + [] == vs;
  }

  // ------------------------------------------------------------ parse

  /** `current_date(options)`: today in the zone of the options, or `Timeliness.date_for_time_type`. */
  datatype Ymd = Ymd(year: int, month: int, day: int)

  function DateSlots(d: Ymd): (r: seq<Option<int>>)
    ensures |r| == 3
  {
    [Some(d.year), Some(d.month), Some(d.day)]
  }

  /**
   * The component array after `parse` adjusts it for the type: `:date`
   * replaces slots 3..7 by a single nil, `:time` puts today's date in
   * slots 0..2, no type fills only the missing date slots, and
   * `:datetime` leaves it alone.
   */
  function Adjusted(ta: seq<Option<int>>, t: Option<FormatType>, today: Ymd): (r: seq<Option<int>>)
    requires |ta| == 8
    ensures t == Some(Date) ==> |r| == 4 && r[..3] == ta[..3] && r[3].None?
    ensures t == Some(Time) ==> |r| == 8 && r[..3] == DateSlots(today) && r[3..] == ta[3..]
    ensures t.None? ==> |r| == 8 && r[3..] == ta[3..]
    ensures t.None? ==> forall i :: 0 <= i < 3 ==> r[i] == if ta[i].Some? then ta[i] else DateSlots(today)[i]
    ensures t == Some(Datetime) ==> r == ta
  {
    match t
    case Some(Date) => ta[..3] + [None]
    case Some(Time) => DateSlots(today) + ta[3..]
    case Some(Datetime) => ta
    case None =>
      seq(8, i requires 0 <= i < 8 => if i < 3 && ta[i].None? then DateSlots(today)[i] else ta[i])
  }

  /** `time_array[0..6]`. */
  function Take7(a: seq<Option<int>>): (r: seq<Option<int>>)
    ensures |r| == if |a| < 7 then |a| else 7
    ensures r == a[..|r|]
  {
    if |a| <= 7 then a else a[..7]
  }

  /**
   * `parse(value, :date)` never yields a time of day: what reaches the
   * time constructor has midnight in hour, minute, second and microsecond.
   */
  lemma DateDropsTime(ta: seq<Option<int>>, today: Ymd, zone: Zone)
    requires |ta| == 8
    ensures var r := MakeTime(Take7(Adjusted(ta, Some(Date), today)), zone);
      r.LocalTime? ==> r.args[3..] == [0, 0, 0, 0]
  {
    var a := Take7(Adjusted(ta, Some(Date), today));
    var c := Compact(a);
    var none: seq<Option<int>> := [None];
    assert a == ta[..3] + none;
    if MakeTime(a, zone).LocalTime? {
      assert a[1].Some? && a[2].Some?;
      var k := if a[0].Some? then 3 else 2;
      var vs := if a[0].Some? then [a[0].value, a[1].value, a[2].value] else [a[1].value, a[2].value];
      assert c == vs by {
        if a[0].Some? {
          assert a == Somes(vs) + none;
          CompactPresent(vs, none);
        } else {
          assert a[1..] == Somes(vs) + none;
          CompactPresent(vs, none);
        }
        assert Compact(none) == [] by { assert none[1..] == []; }
        assert vs + [] == vs;
      }
    }
  }

  /** `parse(value, :time)` builds the time on today's date, whatever the string said. */
  lemma TimeUsesToday(ta: seq<Option<int>>, today: Ymd, zone: Zone)
    requires |ta| == 8
    ensures var r := MakeTime(Take7(Adjusted(ta, Some(Time), today)), zone);
      r.LocalTime? ==> r.args[..3] == [today.year, today.month, today.day]
  {
    var a := Take7(Adjusted(ta, Some(Time), today));
    var ymd := [today.year, today.month, today.day];
    assert a == Somes(ymd) + a[3..];
    CompactPresent(ymd, a[3..]);
  }

  /** `parse` with no type keeps every date component the string gave. */
  lemma NoTypeKeepsParsed(ta: seq<Option<int>>, today: Ymd, i: nat)
    requires |ta| == 8 && i < 3 && ta[i].Some?
    ensures Take7(Adjusted(ta, None, today))[i] == ta[i]
  {
  }

  /** `parse`'s rewrite of the component array, one slice assignment at a time. */
  method PostProcess(timeArray: seq<Option<int>>, t: Option<FormatType>, today: Ymd) returns (ta: seq<Option<int>>)
    requires |timeArray| == 8
    ensures ta == Adjusted(timeArray, t, today)
  {
    ta := timeArray;
    if t == Some(Date) {
      ta := ta[..3] + [None];
    } else if t == Some(Time) {
      ta := DateSlots(today) + ta[3..];
    } else if t.None? {
      var dummy := DateSlots(today);
      if ta[0].None? {
        ta := ta[0 := dummy[0]];
      }
      if ta[1].None? {
        ta := ta[1 := dummy[1]];
      }
      if ta[2].None? {
        ta := ta[2 := dummy[2]];
      }
    }
  }
}
