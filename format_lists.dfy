/**
 * The format lists of `Timeliness::Parser` (lib/timeliness/parser.rb) and
 * what `add_formats`, `remove_formats` and `use_euro_formats` do to them
 * before the sets are recompiled.
 */
module FormatLists {
  import opened Outcomes

  /** `@time_formats` as the source defines it. */
  const TimeFormats: seq<string> := [
    "hh:nn:ss", "hh-nn-ss", "h:nn", "h.nn", "h nn", "h-nn",
    "h:nn_ampm", "h.nn_ampm", "h nn_ampm", "h-nn_ampm", "h_ampm"
  ]

  /** `@date_formats`; the single-quoted `'m\d\yy'` keeps its backslashes. */
  const DateFormats: seq<string> := [
    "yyyy-mm-dd", "yyyy/mm/dd", "yyyy.mm.dd", "m/d/yy", "d/m/yy",
    "m\\d\\yy", "d\\m\\yy", "d-m-yy", "dd-mm-yyyy", "d.m.yy", "d mmm yy"
  ]

  /** `@datetime_formats`, including the RFC 822 and ISO 8601 layouts. */
  const DatetimeFormats: seq<string> := [
    "yyyy-mm-dd hh:nn:ss.u", "yyyy-mm-dd hh:nn:ss", "yyyy-mm-dd h:nn", "yyyy-mm-dd h:nn_ampm",
    "m/d/yy h:nn:ss", "m/d/yy h:nn_ampm", "m/d/yy h:nn",
    "d/m/yy hh:nn:ss", "d/m/yy h:nn_ampm", "d/m/yy h:nn",
    "dd-mm-yyyy hh:nn:ss", "dd-mm-yyyy h:nn_ampm", "dd-mm-yyyy h:nn",
    "ddd, dd mmm yyyy hh:nn:ss tz", "ddd, dd mmm yyyy hh:nn:ss zo",
    "ddd mmm d hh:nn:ss zo yyyy",
    "yyyy-mm-ddThh:nn:ssZ", "yyyy-mm-ddThh:nn:sszo"
  ]

  // ------------------------------------------------------------ add_formats

  /** `formats.index(x)`: the first position of `x`. */
  function IndexOf(list: seq<string>, x: string): (r: nat)
    requires x in list
    ensures r < |list| && list[r] == x && x !in list[..r]
  {
    if list[0] == x then 0
    else
      var r := IndexOf(list[1..], x);
      assert list[1..][..r] == list[1..r + 1];
      assert list[..r + 1] == [list[0]] + list[1..r + 1];
      r + 1
  }

  /** `formats.insert(index, format)`: before `before`'s first position, or at the end (`-1`). */
  function InsertAt(list: seq<string>, f: string, before: Option<string>): (r: seq<string>)
    requires before.Some? ==> before.value in list
    ensures |r| == |list| + 1
    ensures forall x :: x in r <==> x in list || x == f
  {
    var i := if before.Some? then IndexOf(list, before.value) else |list|;
    assert list == list[..i] + list[i..];
    list[..i] + [f] + list[i..]
  }

  /**
   * The `add_formats` loop: each format is inserted in turn; one already
   * present ends the loop with an error, leaving the insertions made so far.
   */
  function AddEach(list: seq<string>, formats: seq<string>, before: Option<string>): (seq<string>, Option<Error>)
    requires before.Some? ==> before.value in list
    decreases |formats|
  {
    if formats == [] then (list, None)
    else if formats[0] in list then (list, Some(FormatIncluded(formats[0])))
    else AddEach(InsertAt(list, formats[0], before), formats[1..], before)
  }

  /** All of `add_formats` before the recompilation, starting with the `:before` check. */
  function Added(list: seq<string>, formats: seq<string>, before: Option<string>): (seq<string>, Option<Error>)
  {
    if before.Some? && before.value !in list then (list, Some(BeforeNotFound(before.value)))
    else AddEach(list, formats, before)
  }

  /** None of the formats is in the list, and none repeats an earlier one. */
  ghost predicate AllNew(list: seq<string>, formats: seq<string>) {
    forall k :: 0 <= k < |formats| ==> formats[k] !in list && formats[k] !in formats[..k]
  }

  /** `AllNew` peeled by one format: the first is new, the rest are new once it is in. */
  lemma AllNewCons(list: seq<string>, formats: seq<string>, before: Option<string>)
    requires formats != [] && (before.Some? ==> before.value in list)
    ensures AllNew(list, formats) <==>
      formats[0] !in list && AllNew(InsertAt(list, formats[0], before), formats[1..])
  {
    var f, tail := formats[0], formats[1..];
    var l2 := InsertAt(list, f, before);
    assert forall k :: 0 <= k < |tail| ==> formats[k + 1] == tail[k] && formats[..k + 1] == [f] + tail[..k];
    if formats[0] !in list && AllNew(l2, tail) {
      forall k | 0 <= k < |formats|
        ensures formats[k] !in list && formats[k] !in formats[..k]
      {
        if k > 0 {
          assert formats[k] == tail[k - 1];
        }
      }
    }
  }

  /** Adding succeeds exactly when every format is new, counting those added before it. */
  lemma {:induction false} AddEachSucceeds(list: seq<string>, formats: seq<string>, before: Option<string>)
    requires before.Some? ==> before.value in list
    ensures AddEach(list, formats, before).1.None? <==> AllNew(list, formats)
    ensures AddEach(list, formats, before).1.Some? ==>
      exists k :: 0 <= k < |formats| && AddEach(list, formats, before).1 == Some(FormatIncluded(formats[k]))
    decreases |formats|
  {
    if formats != [] {
      AllNewCons(list, formats, before);
      if formats[0] !in list {
        var l2 := InsertAt(list, formats[0], before);
        var tail := formats[1..];
        AddEachSucceeds(l2, tail, before);
        if AddEach(l2, tail, before).1.Some? {
          var k :| 0 <= k < |tail| && AddEach(l2, tail, before).1 == Some(FormatIncluded(tail[k]));
          assert tail[k] == formats[k + 1];
        }
      }
    }
  }

  /** Without `:before`, new formats are appended in the given order. */
  lemma {:induction false} AddEachAppends(list: seq<string>, formats: seq<string>)
    requires AllNew(list, formats)
    ensures AddEach(list, formats, None) == (list + formats, None)
    decreases |formats|
  {
    if formats != [] {
      AllNewCons(list, formats, None);
      var f, tail := formats[0], formats[1..];
      var l2 := list + [f];
      assert InsertAt(list, f, None) == l2;
      assert AddEach(list, formats, None) == AddEach(l2, tail, None);
      AddEachAppends(l2, tail);
      assert formats == [f] + tail;
      assert l2 + tail == list + formats;
    } else {
      assert list + formats == list;
    }
  }

  /** Inserting before the anchor moves the anchor one place on. */
  lemma InsertBefore(list: seq<string>, f: string, b: string)
    requires b in list && f != b
    ensures var i := IndexOf(list, b);
      var l2 := InsertAt(list, f, Some(b));
      l2 == list[..i] + [f] + list[i..] && IndexOf(l2, b) == i + 1 &&
      l2[..i + 1] == list[..i] + [f] && l2[i + 1..] == list[i..]
  {
    var i := IndexOf(list, b);
    var l2 := list[..i] + [f] + list[i..];
    assert l2[..i + 1] == list[..i] + [f];
    assert l2[i + 1..] == list[i..];
    assert l2[i + 1] == b;
    assert b !in l2[..i + 1];
    assert forall q :: 0 <= q < i + 1 ==> l2[..i + 1][q] == l2[q];
    var j := IndexOf(l2, b);
    assert forall q :: 0 <= q < j ==> l2[..j][q] == l2[q];
  }

  /**
   * With `:before`, new formats land in the given order immediately before
   * the first occurrence of the anchor; the old entries keep their order
   * around them.
   */
  lemma {:induction false} AddEachBefore(list: seq<string>, formats: seq<string>, b: string)
    requires b in list && AllNew(list, formats)
    ensures var i := IndexOf(list, b);
      AddEach(list, formats, Some(b)) == (list[..i] + formats + list[i..], None)
    decreases |formats|
  {
    var i := IndexOf(list, b);
    if formats != [] {
      var l2 := BeforeStep(list, formats, b);
      AddEachBefore(l2, formats[1..], b);
      Splice(list[..i], list[i..], formats[0], formats[1..], l2);
      assert formats == [formats[0]] + formats[1..];
    } else {
      assert list[..i] + formats + list[i..] == list;
    }
  }

  /** One step of `AddEachBefore`: the first format goes in just before the anchor. */
  lemma BeforeStep(list: seq<string>, formats: seq<string>, b: string) returns (l2: seq<string>)
    requires b in list && AllNew(list, formats) && formats != []
    ensures l2 == list[..IndexOf(list, b)] + [formats[0]] + list[IndexOf(list, b)..]
    ensures b in l2 && IndexOf(l2, b) == IndexOf(list, b) + 1 && AllNew(l2, formats[1..])
    ensures AddEach(list, formats, Some(b)) == AddEach(l2, formats[1..], Some(b))
  {
    AllNewCons(list, formats, Some(b));
    assert formats[0] != b;
    InsertBefore(list, formats[0], b);
    l2 := InsertAt(list, formats[0], Some(b));
  }

  /** Regrouping one insertion step of `AddEachBefore`. */
  lemma Splice(head: seq<string>, back: seq<string>, f: string, tail: seq<string>, l2: seq<string>)
    requires l2 == head + [f] + back
    ensures l2[..|head| + 1] + tail + l2[|head| + 1..] == head + ([f] + tail) + back
  {
    assert l2[..|head| + 1] == head + [f];
    assert l2[|head| + 1..] == back;
  }

  // ------------------------------------------------------------ remove_formats

  /** `list.delete(f)`: every occurrence removed, the rest in order. */
  function DeleteAll(list: seq<string>, f: string): (r: seq<string>)
    ensures forall x :: x in r <==> x in list && x != f
  {
    if list == [] then []
    else (if list[0] == f then [] else [list[0]]) + DeleteAll(list[1..], f)
  }

  /**
   * The `remove_formats` loop: each format's occurrences are deleted in
   * turn; one with none ends the loop with an error, leaving the deletions
   * made so far.
   */
  function RemoveEach(list: seq<string>, formats: seq<string>): (seq<string>, Option<Error>)
    decreases |formats|
  {
    if formats == [] then (list, None)
    else if formats[0] !in list then (list, Some(FormatNotFound(formats[0])))
    else RemoveEach(DeleteAll(list, formats[0]), formats[1..])
  }

  /** The entries of `list` that are none of `formats`, in their order. */
  function Keep(list: seq<string>, formats: seq<string>): (r: seq<string>)
    ensures forall x :: x in r <==> x in list && x !in formats
  {
    if list == [] then []
    else (if list[0] in formats then [] else [list[0]]) + Keep(list[1..], formats)
  }

  lemma {:induction false} KeepAfterDelete(list: seq<string>, f: string, rest: seq<string>)
    ensures Keep(DeleteAll(list, f), rest) == Keep(list, [f] + rest)
  {
    if list != [] {
      KeepAfterDelete(list[1..], f, rest);
      var d1 := DeleteAll(list[1..], f);
      if list[0] == f {
        assert DeleteAll(list, f) == d1;
      } else {
        var d := DeleteAll(list, f);
        assert d == [list[0]] + d1;
        assert d[0] == list[0] && d[1..] == d1;
        assert list[0] in rest <==> list[0] in [f] + rest;
      }
    }
  }

  lemma {:induction false} KeepNothing(list: seq<string>)
    ensures Keep(list, []) == list
  {
    if list != [] {
      KeepNothing(list[1..]);
      assert list == [list[0]] + list[1..];
    }
  }

  /** Every format to remove is present when its turn comes. */
  ghost predicate AllPresent(list: seq<string>, formats: seq<string>) {
    forall k :: 0 <= k < |formats| ==> formats[k] in list && formats[k] !in formats[..k]
  }

  /** `AllPresent` peeled by one format. */
  lemma AllPresentCons(list: seq<string>, formats: seq<string>)
    requires formats != []
    ensures AllPresent(list, formats) <==>
      formats[0] in list && AllPresent(DeleteAll(list, formats[0]), formats[1..])
  {
    var f, tail := formats[0], formats[1..];
    var l2 := DeleteAll(list, f);
    assert forall k :: 0 <= k < |tail| ==> formats[k + 1] == tail[k] && formats[..k + 1] == [f] + tail[..k];
    if formats[0] in list && AllPresent(l2, tail) {
      forall k | 0 <= k < |formats|
        ensures formats[k] in list && formats[k] !in formats[..k]
      {
        if k > 0 {
          assert formats[k] == tail[k - 1];
        }
      }
    }
  }

  /**
   * Removing succeeds exactly when each format is present at its turn, and
   * then leaves the other entries in their order.
   */
  lemma {:induction false} RemoveEachMeaning(list: seq<string>, formats: seq<string>)
    ensures RemoveEach(list, formats).1.None? <==> AllPresent(list, formats)
    ensures RemoveEach(list, formats).1.None? ==> RemoveEach(list, formats).0 == Keep(list, formats)
    ensures RemoveEach(list, formats).1.Some? ==>
      exists k :: 0 <= k < |formats| && RemoveEach(list, formats).1 == Some(FormatNotFound(formats[k]))
    decreases |formats|
  {
    if formats == [] {
      KeepNothing(list);
    } else {
      AllPresentCons(list, formats);
      if formats[0] in list {
        var l2 := DeleteAll(list, formats[0]);
        var tail := formats[1..];
        RemoveEachMeaning(l2, tail);
        KeepAfterDelete(list, formats[0], tail);
        assert [formats[0]] + tail == formats;
        if RemoveEach(l2, tail).1.Some? {
          var k :| 0 <= k < |tail| && RemoveEach(l2, tail).1 == Some(FormatNotFound(tail[k]));
          assert tail[k] == formats[k + 1];
        }
      }
    }
  }

  // ------------------------------------------------------------ US and European formats

  /**
   * `US_FORMAT_REGEXP =~ format` for `/\Am{1,2}[^m]/`: one or two `m`
   * at the start, then a character that is not `m`.
   */
  predicate IsUsFormat(f: string) {
    |f| >= 2 && f[0] == 'm' && (f[1] != 'm' || (|f| >= 3 && f[2] != 'm'))
  }

  /** The regexp reading of `IsUsFormat`: a run of k in {1, 2} `m`s followed by a non-`m`. */
  lemma UsFormatMeaning(f: string)
    ensures IsUsFormat(f) <==>
      exists k :: 1 <= k <= 2 && k < |f| && (forall i :: 0 <= i < k ==> f[i] == 'm') && f[k] != 'm'
  {
    if IsUsFormat(f) {
      var k := if f[1] != 'm' then 1 else 2;
      assert forall i :: 0 <= i < k ==> f[i] == 'm';
    }
  }

  /** `formats.select { |format| US_FORMAT_REGEXP !~ format }`. */
  function EuroFormats(list: seq<string>): (r: seq<string>)
    ensures forall x :: x in r <==> x in list && !IsUsFormat(x)
  {
    if list == [] then []
    else (if IsUsFormat(list[0]) then [] else [list[0]]) + EuroFormats(list[1..])
  }

  /**
   * The selection keeps the list's order: it is the list with the US
   * layouts removed, for any list naming exactly those among its own.
   */
  lemma {:induction false} EuroFormatsIsKeep(list: seq<string>, us: seq<string>)
    requires forall x :: x in list && IsUsFormat(x) ==> x in us
    requires forall x :: x in us ==> IsUsFormat(x)
    ensures EuroFormats(list) == Keep(list, us)
  {
    if list != [] {
      assert forall x :: x in list[1..] ==> x in list;
      EuroFormatsIsKeep(list[1..], us);
    }
  }

  /** The source's date layouts that read as month first are `m/d/yy` and `m\d\yy`. */
  lemma EuroDateDefaults()
    ensures EuroFormats(DateFormats) == Keep(DateFormats, ["m/d/yy", "m\\d\\yy"])
    ensures "d/m/yy" in EuroFormats(DateFormats) && "m/d/yy" !in EuroFormats(DateFormats)
  {
    var us := ["m/d/yy", "m\\d\\yy"];
    assert forall x :: x in DateFormats && IsUsFormat(x) ==> x in us;
    EuroFormatsIsKeep(DateFormats, us);
  }

  /** The source's datetime layouts that read as month first are the three `m/d/yy` ones. */
  lemma EuroDatetimeDefaults()
    ensures EuroFormats(DatetimeFormats) == Keep(DatetimeFormats, ["m/d/yy h:nn:ss", "m/d/yy h:nn_ampm", "m/d/yy h:nn"])
  {
    var us := ["m/d/yy h:nn:ss", "m/d/yy h:nn_ampm", "m/d/yy h:nn"];
    assert forall x :: x in DatetimeFormats && IsUsFormat(x) ==> x in us;
    EuroFormatsIsKeep(DatetimeFormats, us);
  }
}
