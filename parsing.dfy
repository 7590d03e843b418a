/**
 * `Timeliness::Parser` (lib/timeliness/parser.rb) as an object: the three
 * format lists it updates in place, the three format sets compiled from
 * them, `compile_formats`, `add_formats`, `remove_formats`, the US and
 * European switches, `_parse` and `parse`.
 */
module Parsing {
  import opened Outcomes
  import opened Tokens
  import opened Formats
  import opened FormatSets
  import opened FormatLists
  import opened Candidates
  import opened TimeArrays

  /** The first argument of `parse`: a String, or any other object. */
  datatype Value = Text(s: string) | NotText

  /** The options `parse` and `_parse` read. */
  datatype Options = Options(strict: bool, format: Option<string>, zone: Zone)

  /**
   * Whether a set is compiled from `formats` with the parser's catalog:
   * what each `FormatSet.compile` assignment leaves in a field.
   */
  ghost predicate Built(s: FormatSet?, formats: seq<string>, keys: seq<TokenSpec>)
    reads s
  {
    s != null && s.Valid() && s.compiled && s.formats == formats && s.keys == keys
  }

  class Parser {
    /** `sorted_token_keys`, the catalog every set is compiled with. */
    const keys: seq<TokenSpec>
    var timeFormats: seq<string>
    var dateFormats: seq<string>
    var datetimeFormats: seq<string>
    /** `@time_format_set` and the other two; nil until first compiled. */
    var timeSet: FormatSet?
    var dateSet: FormatSet?
    var datetimeSet: FormatSet?

    /** Every set present is a compiled set over the catalog. */
    ghost predicate Valid()
      reads this, timeSet, dateSet, datetimeSet
    {
      (timeSet != null ==> timeSet.Valid() && timeSet.compiled && timeSet.keys == keys) &&
      (dateSet != null ==> dateSet.Valid() && dateSet.compiled && dateSet.keys == keys) &&
      (datetimeSet != null ==> datetimeSet.Valid() && datetimeSet.compiled && datetimeSet.keys == keys)
    }

    /** The class body: the three lists as defined, no sets yet. */
    constructor(catalog: seq<TokenSpec>)
      ensures timeFormats == TimeFormats && dateFormats == DateFormats && datetimeFormats == DatetimeFormats
      ensures timeSet == null && dateSet == null && datetimeSet == null
      ensures keys == catalog
      ensures Valid()
    {
      keys := catalog;
      timeFormats, dateFormats, datetimeFormats := TimeFormats, DateFormats, DatetimeFormats;
      timeSet, dateSet, datetimeSet := null, null, null;
    }

    /** `send("#{type}_formats")`. */
    function FormatsOf(t: FormatType): seq<string>
      reads this
    {
      match t
      case Time => timeFormats
      case Date => dateFormats
      case Datetime => datetimeFormats
    }

    function SetOf(k: SetKind): (s: FormatSet?)
      reads this
      ensures s == timeSet || s == dateSet || s == datetimeSet
    {
      match k
      case TimeSet => timeSet
      case DateSet => dateSet
      case DatetimeSet => datetimeSet
    }

    /** The list held by the field for `t` becomes `list`; nothing else changes. */
    method SetFormats(t: FormatType, list: seq<string>)
      modifies this
      ensures FormatsOf(t) == list
      ensures forall u :: u != t ==> FormatsOf(u) == old(FormatsOf(u))
      ensures timeSet == old(timeSet) && dateSet == old(dateSet) && datetimeSet == old(datetimeSet)
    {
      match t
      case Time => timeFormats := list;
      case Date => dateFormats := list;
      case Datetime => datetimeFormats := list;
    }

    /**
     * The date and datetime sets rebuilt from `dates` and `datetimes`, in
     * that order: a compilation error is raised at once and leaves the
     * fields not yet assigned as they were.
     */
    twostate predicate DatesRebuilt(new r: Result<Unit>, dates: seq<string>, datetimes: seq<string>)
      reads this, dateSet, datetimeSet
    {
      var de := CompileAll(dates, keys).1;
      var xe := CompileAll(datetimes, keys).1;
      (de.Some? ==> r == Err(de.value) && dateSet == old(dateSet) && datetimeSet == old(datetimeSet)) &&
      (de.None? ==> fresh(dateSet) && Built(dateSet, dates, keys)) &&
      (de.None? && xe.Some? ==> r == Err(xe.value) && datetimeSet == old(datetimeSet)) &&
      (de.None? && xe.None? ==> r == Ok(Unit) && fresh(datetimeSet) && Built(datetimeSet, datetimes, keys))
    }

    /** All three sets rebuilt from the lists, time first. */
    twostate predicate Recompiled(new r: Result<Unit>)
      reads this, timeSet, dateSet, datetimeSet
    {
      var te := CompileAll(timeFormats, keys).1;
      (te.Some? ==> r == Err(te.value) && timeSet == old(timeSet) && dateSet == old(dateSet) && datetimeSet == old(datetimeSet)) &&
      (te.None? ==> fresh(timeSet) && Built(timeSet, timeFormats, keys) && DatesRebuilt(r, dateFormats, datetimeFormats))
    }

    /** Compiles the date and datetime sets from the given lists. */
    method RebuildDates(dates: seq<string>, datetimes: seq<string>) returns (r: Result<Unit>)
      requires Valid()
      modifies this
      ensures Valid() && DatesRebuilt(r, dates, datetimes)
      ensures timeSet == old(timeSet)
      ensures timeFormats == old(timeFormats) && dateFormats == old(dateFormats) && datetimeFormats == old(datetimeFormats)
    {
      var d := CompileSet(dates, keys);
      if d.Err? {
        return Err(d.error);
      }
      dateSet := d.value;
      var x := CompileSet(datetimes, keys);
      if x.Err? {
        return Err(x.error);
      }
      datetimeSet := x.value;
      r := Ok(Unit);
    }

    /** `compile_formats`: every set from its list. */
    method CompileFormats() returns (r: Result<Unit>)
      requires Valid()
      modifies this
      ensures Valid() && Recompiled(r)
      ensures timeFormats == old(timeFormats) && dateFormats == old(dateFormats) && datetimeFormats == old(datetimeFormats)
    {
      var t := CompileSet(timeFormats, keys);
      if t.Err? {
        return Err(t.error);
      }
      timeSet := t.value;
      r := RebuildDates(dateFormats, datetimeFormats);
    }

    /** `use_euro_formats`: the date and datetime sets without the month-first layouts; the lists stay. */
    method UseEuroFormats() returns (r: Result<Unit>)
      requires Valid()
      modifies this
      ensures Valid() && timeSet == old(timeSet)
      ensures DatesRebuilt(r, EuroFormats(dateFormats), EuroFormats(datetimeFormats))
      ensures timeFormats == old(timeFormats) && dateFormats == old(dateFormats) && datetimeFormats == old(datetimeFormats)
    {
      r := RebuildDates(EuroFormats(dateFormats), EuroFormats(datetimeFormats));
    }

    /** `use_us_formats`: the date and datetime sets from the full lists again. */
    method UseUsFormats() returns (r: Result<Unit>)
      requires Valid()
      modifies this
      ensures Valid() && timeSet == old(timeSet)
      ensures DatesRebuilt(r, dateFormats, datetimeFormats)
      ensures timeFormats == old(timeFormats) && dateFormats == old(dateFormats) && datetimeFormats == old(datetimeFormats)
    {
      r := RebuildDates(dateFormats, datetimeFormats);
    }

    /**
     * `add_formats(type, *formats, before: before)`: the anchor must be in
     * the list; each format, which must not be there yet, is inserted in
     * place; then every set is recompiled. A raise leaves the list as far
     * as it got and the sets as they were.
     */
    method AddFormats(t: FormatType, formats: seq<string>, before: Option<string>) returns (r: Result<Unit>)
      requires Valid()
      modifies this
      ensures Valid()
      ensures var (list, err) := Added(old(FormatsOf(t)), formats, before);
        FormatsOf(t) == list && (forall u :: u != t ==> FormatsOf(u) == old(FormatsOf(u))) &&
        (err.Some? ==> r == Err(err.value) &&
                       timeSet == old(timeSet) && dateSet == old(dateSet) && datetimeSet == old(datetimeSet)) &&
        (err.None? ==> Recompiled(r))
    {
      if before.Some? && before.value !in FormatsOf(t) {
        return Err(BeforeNotFound(before.value));
      }
      var err := InsertEach(t, formats, before);
      if err.Some? {
        return Err(err.value);
      }
      r := CompileFormats();
    }

    /** The `add_formats` loop: each format inserted in place, or a raise for one already there. */
    method InsertEach(t: FormatType, formats: seq<string>, before: Option<string>) returns (err: Option<Error>)
      requires before.Some? ==> before.value in FormatsOf(t)
      modifies this
      ensures (FormatsOf(t), err) == AddEach(old(FormatsOf(t)), formats, before)
      ensures forall u :: u != t ==> FormatsOf(u) == old(FormatsOf(u))
      ensures timeSet == old(timeSet) && dateSet == old(dateSet) && datetimeSet == old(datetimeSet)
    {
      var i := 0;
      while i < |formats|
        invariant 0 <= i <= |formats|
        invariant before.Some? ==> before.value in FormatsOf(t)
        invariant AddEach(old(FormatsOf(t)), formats, before) == AddEach(FormatsOf(t), formats[i..], before)
        invariant forall u :: u != t ==> FormatsOf(u) == old(FormatsOf(u))
        invariant timeSet == old(timeSet) && dateSet == old(dateSet) && datetimeSet == old(datetimeSet)
      {
        var f := formats[i];
        var cur := FormatsOf(t);
        assert formats[i..][0] == f && formats[i..][1..] == formats[i + 1..];
        if f in cur {
          return Some(FormatIncluded(f));
        }
        SetFormats(t, InsertAt(cur, f, before));
        i := i + 1;
      }
      err := None;
    }

    /**
     * `remove_formats(type, *formats)`: every occurrence of each format is
     * deleted in place, and one not found raises; then every set is
     * recompiled.
     */
    method RemoveFormats(t: FormatType, formats: seq<string>) returns (r: Result<Unit>)
      requires Valid()
      modifies this
      ensures Valid()
      ensures var (list, err) := RemoveEach(old(FormatsOf(t)), formats);
        FormatsOf(t) == list && (forall u :: u != t ==> FormatsOf(u) == old(FormatsOf(u))) &&
        (err.Some? ==> r == Err(err.value) &&
                       timeSet == old(timeSet) && dateSet == old(dateSet) && datetimeSet == old(datetimeSet)) &&
        (err.None? ==> Recompiled(r))
    {
      var err := DeleteEach(t, formats);
      if err.Some? {
        return Err(err.value);
      }
      r := CompileFormats();
    }

    /** The `remove_formats` loop: each format deleted in place, or a raise for one not there. */
    method DeleteEach(t: FormatType, formats: seq<string>) returns (err: Option<Error>)
      modifies this
      ensures (FormatsOf(t), err) == RemoveEach(old(FormatsOf(t)), formats)
      ensures forall u :: u != t ==> FormatsOf(u) == old(FormatsOf(u))
      ensures timeSet == old(timeSet) && dateSet == old(dateSet) && datetimeSet == old(datetimeSet)
    {
      var i := 0;
      while i < |formats|
        invariant 0 <= i <= |formats|
        invariant RemoveEach(old(FormatsOf(t)), formats) == RemoveEach(FormatsOf(t), formats[i..])
        invariant forall u :: u != t ==> FormatsOf(u) == old(FormatsOf(u))
        invariant timeSet == old(timeSet) && dateSet == old(dateSet) && datetimeSet == old(datetimeSet)
      {
        var f := formats[i];
        var cur := FormatsOf(t);
        assert formats[i..][0] == f && formats[i..][1..] == formats[i + 1..];
        if f !in cur {
          return Some(FormatNotFound(f));
        }
        SetFormats(t, DeleteAll(cur, f));
        i := i + 1;
      }
      err := None;
    }

    /** One set's `match`; a set still nil raises NoMethodError. */
    function MatchOf(k: SetKind, s: string, format: Option<string>, ctx: Context): (r: Result<Option<seq<Option<int>>>>)
      reads this, timeSet, dateSet, datetimeSet
      ensures r.Ok? && r.value.Some? ==> |r.value.value| == 8
    {
      var fset := SetOf(k);
      if fset == null then Err(NilReceiver) else fset.Match(s, format, ctx)
    }

    /** Each set's answer to `match`, in the order given. */
    function MatchAll(kinds: seq<SetKind>, s: string, format: Option<string>, ctx: Context): (r: seq<Result<Option<seq<Option<int>>>>>)
      reads this, timeSet, dateSet, datetimeSet
      ensures |r| == |kinds| && forall i :: 0 <= i < |kinds| ==> r[i] == MatchOf(kinds[i], s, format, ctx)
    {
      seq(|kinds|, i requires 0 <= i < |kinds| reads this, timeSet, dateSet, datetimeSet => MatchOf(kinds[i], s, format, ctx))
    }

    /**
     * `_parse(string, type, options)`, corrected: with `:strict` only the
     * type's own set is read, as `send("#{type}_format_set")` would with
     * readers for the three sets (nil raises, as there is no
     * `_format_set`); otherwise the candidate sets in order. Every raise
     * becomes nil.
     */
    function ParseValues(s: string, t: Option<FormatType>, strict: bool, format: Option<string>, ctx: Context): (r: Option<seq<Option<int>>>)
      reads this, timeSet, dateSet, datetimeSet
      ensures r.Some? ==> |r.value| == 8
      ensures strict && t.None? ==> r.None?
      ensures strict && t.Some? ==> r == FirstFound(MatchAll([OwnSet(t.value)], s, format, ctx))
      ensures !strict ==> r == FirstFound(MatchAll(FormatSetsFor(t, s), s, format, ctx))
    {
      if strict then
        if t.None? then None
        else
          var m := MatchOf(OwnSet(t.value), s, format, ctx);
          var ms := MatchAll([OwnSet(t.value)], s, format, ctx);
          if m == Ok(None) then FirstFoundNone(ms); None
          else FirstFoundDecides(ms, 0); if m.Err? then None else m.value
      else FirstFound(MatchAll(FormatSetsFor(t, s), s, format, ctx))
    }

    /**
     * `_parse` as written: the parser defines no `time_format_set`,
     * `date_format_set` or `datetime_format_set` reader, so under
     * `:strict` the `send` raises NoMethodError for every type, and the
     * bare `rescue` turns it into nil.
     */
    function ParseValuesAsWritten(s: string, t: Option<FormatType>, strict: bool, format: Option<string>, ctx: Context): (r: Option<seq<Option<int>>>)
      reads this, timeSet, dateSet, datetimeSet
      ensures strict ==> r.None?
      ensures !strict ==> r == ParseValues(s, t, false, format, ctx)
    {
      if strict then None else FirstFound(MatchAll(FormatSetsFor(t, s), s, format, ctx))
    }

    /**
     * Whenever the type's own set reads the string, strict parsing as
     * written answers nil, where the corrected one answers that set's values.
     */
    lemma StrictReaderCounterexample(s: string, t: FormatType, format: Option<string>, ctx: Context)
      requires MatchOf(OwnSet(t), s, format, ctx).Ok? && MatchOf(OwnSet(t), s, format, ctx).value.Some?
      ensures ParseValuesAsWritten(s, Some(t), true, format, ctx).None?
      ensures ParseValues(s, Some(t), true, format, ctx) == MatchOf(OwnSet(t), s, format, ctx).value
    {
      FirstFoundDecides(MatchAll([OwnSet(t)], s, format, ctx), 0);
    }

    /**
     * A short string of type `:time` is looked for in the time set alone,
     * strict or not; a raise there (such as `13:14 am`) gives nil.
     */
    lemma ShortTimeOnlyTimeSet(s: string, strict: bool, format: Option<string>, ctx: Context)
      requires |s| < 11
      ensures ParseValues(s, Some(Time), strict, format, ctx) == ParseValues(s, Some(Time), true, format, ctx)
      ensures MatchOf(TimeSet, s, format, ctx).Err? ==> ParseValues(s, Some(Time), strict, format, ctx).None?
    {
      var ms := MatchAll([TimeSet], s, format, ctx);
      if ms[0].Err? {
        FirstFoundDecides(ms, 0);
      }
    }

    /**
     * `parse(value, type, options)`: a non-String is returned as is; a
     * string `_parse` cannot read gives nil; otherwise the adjusted first
     * seven slots go through `make_time`.
     */
    method Parse(value: Value, t: Option<FormatType>, opts: Options, today: Ymd, ctx: Context) returns (r: Outcome)
      ensures value.NotText? ==> r == Unchanged
      ensures value.Text? ==>
        var ta := ParseValues(value.s, t, opts.strict, opts.format, ctx);
        (ta.None? ==> r == NoTime) &&
        (ta.Some? ==> r == MakeTime(Take7(Adjusted(ta.value, t, today)), opts.zone))
    {
      if value.NotText? {
        return Unchanged;
      }
      var ta := ParseValues(value.s, t, opts.strict, opts.format, ctx);
      if ta.None? {
        return NoTime;
      }
      var adjusted := PostProcess(ta.value, t, today);
      r := MakeTime(Take7(adjusted), opts.zone);
    }
  }

  /** The file's last line: the parser with its lists, compiled once. */
  method Load(catalog: seq<TokenSpec>) returns (p: Parser, r: Result<Unit>)
    ensures p.keys == catalog
    ensures fresh(p) && p.Valid()
    ensures p.timeFormats == TimeFormats && p.dateFormats == DateFormats && p.datetimeFormats == DatetimeFormats
    ensures r.Ok? <==> CompileAll(TimeFormats, p.keys).1.None? && CompileAll(DateFormats, p.keys).1.None? &&
                       CompileAll(DatetimeFormats, p.keys).1.None?
    ensures r.Ok? ==> Built(p.timeSet, TimeFormats, p.keys) && Built(p.dateSet, DateFormats, p.keys) &&
                      Built(p.datetimeSet, DatetimeFormats, p.keys)
  {
    p := new Parser(catalog);
    r := p.CompileFormats();
  }
}
