/**
 * The choice of format sets in `Timeliness::Parser`
 * (lib/timeliness/parser.rb): which compiled sets `format_set` offers for
 * a type and a string, and how `_parse` picks the answer from their
 * matches.
 */
module Candidates {
  import opened Outcomes

  /** The `type` argument: `:date`, `:time` or `:datetime` (nil is `None`). */
  datatype FormatType = Date | Time | Datetime

  /** The three compiled sets `@time_format_set`, `@date_format_set`, `@datetime_format_set`. */
  datatype SetKind = TimeSet | DateSet | DatetimeSet

  /** The set a type's name selects (`send("#{type}_format_set")`). */
  function OwnSet(t: FormatType): (k: SetKind)
    ensures t == Date <==> k == DateSet
    ensures t == Time <==> k == TimeSet
    ensures t == Datetime <==> k == DatetimeSet
  {
    match t
    case Date => DateSet
    case Time => TimeSet
    case Datetime => DatetimeSet
  }

  /**
   * `format_set(type, string)`: the sets to try, in order. Strings shorter
   * than 11 characters try the shorter layouts first.
   */
  function FormatSetsFor(t: Option<FormatType>, s: string): (r: seq<SetKind>)
    ensures forall i, j :: 0 <= i < j < |r| ==> r[i] != r[j]
    ensures t.Some? ==> OwnSet(t.value) in r
    ensures t.None? ==> |r| == 3
    ensures t == Some(Date) ==> r == [DateSet, DatetimeSet]
    ensures t == Some(Time) ==> DateSet !in r && (|s| < 11 <==> |r| == 1)
    ensures t != Some(Date) && |s| >= 11 ==> r[0] == DatetimeSet
    ensures t != Some(Date) && |s| < 11 ==> r[0] == (if t == Some(Time) then TimeSet else DateSet)
    ensures t == Some(Datetime) ==> TimeSet !in r
  {
    match t
    case Some(Date) => [DateSet, DatetimeSet]
    case Some(Time) => if |s| < 11 then [TimeSet] else [DatetimeSet, TimeSet]
    case Some(Datetime) => if |s| < 11 then [DateSet, DatetimeSet] else [DatetimeSet, DateSet]
    case None => if |s| < 11 then [DateSet, TimeSet, DatetimeSet] else [DatetimeSet, DateSet, TimeSet]
  }

  /**
   * `sets.find { |set| values = set.match(...) }` inside `_parse`'s
   * rescue, given each set's answer in order: the first non-nil values,
   * nil when every set answers nil, and nil when a match raises first.
   */
  function FirstFound<T>(results: seq<Result<Option<T>>>): (r: Option<T>)
    ensures r.Some? ==> exists k :: 0 <= k < |results| && results[k] == Ok(r) &&
                                    forall j :: 0 <= j < k ==> results[j] == Ok(None)
  {
    if results == [] then None
    else if results[0].Err? then None
    else if results[0].value.Some? then results[0].value
    else
      var r := FirstFound(results[1..]);
      assert forall j :: 1 <= j < |results| ==> results[j] == results[1..][j - 1];
      r
  }

  /**
   * The first set whose answer is not nil decides: its values, or nil if
   * it raised. The sets after it are not consulted.
   */
  lemma {:induction false} FirstFoundDecides<T>(results: seq<Result<Option<T>>>, k: nat)
    requires k < |results|
    requires forall j :: 0 <= j < k ==> results[j] == Ok(None)
    requires results[k] != Ok(None)
    ensures FirstFound(results) == if results[k].Err? then None else results[k].value
  {
    if k > 0 {
      assert results[0] == Ok(None);
      var tail := results[1..];
      assert forall j :: 0 <= j < k - 1 ==> tail[j] == results[j + 1];
      FirstFoundDecides(tail, k - 1);
    }
  }

  /** When every set answers nil, so does the search. */
  lemma {:induction false} FirstFoundNone<T>(results: seq<Result<Option<T>>>)
    requires forall j :: 0 <= j < |results| ==> results[j] == Ok(None)
    ensures FirstFound(results).None?
  {
    if results != [] {
      assert results[0] == Ok(None);
      var tail := results[1..];
      assert forall j :: 0 <= j < |tail| ==> tail[j] == results[j + 1];
      FirstFoundNone(tail);
    }
  }
}
