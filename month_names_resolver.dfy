/**
 * `Timeliness::Helpers::MonthNamesResolver`
 * (lib/timeliness/helpers/month_names_resolver.rb): reads a month as a
 * number, or looks its capitalized name up in month-name tables: Ruby's
 * `Date` tables, the current I18n locale's, or, locale-agnostically, the
 * configured base tables followed by every available locale's.
 */
module MonthResolver {
  import opened Text
  import opened Outcomes
  import opened Helpers

  /** A month-name table: a placeholder at 0, then one entry per month. */
  type Table = seq<Option<string>>

  /** The two tables one I18n locale provides. */
  datatype Locale = Locale(monthNames: Table, abbrMonthNames: Table)

  /** What `I18n` offers when it is loaded: the current locale and those available, in order. */
  datatype I18nState = I18nState(current: Locale, available: seq<Locale>)

  /** `table.index(name)`: the first position holding exactly `name`. */
  function TableIndex(table: Table, name: string): (r: Option<nat>)
    ensures r.Some? ==> r.value < |table| && table[r.value] == Some(name)
    ensures r.Some? ==> forall j :: 0 <= j < r.value ==> table[j] != Some(name)
    ensures r.None? <==> forall j :: 0 <= j < |table| ==> table[j] != Some(name)
  {
    if table == [] then None
    else if table[0] == Some(name) then Some(0)
    else
      var r := TableIndex(table[1..], name);
      assert forall j :: 1 <= j < |table| ==> table[j] == table[1..][j - 1];
      if r.None? then None else Some(r.value + 1)
  }

  /**
   * `names.map { |t| t.index(name) }.compact.first`: the position of
   * `name` in the first table that holds it, and which table that is.
   */
  function FirstTableIndex(tables: seq<Table>, name: string): (r: Option<(nat, nat)>)
    ensures r.Some? ==> r.value.0 < |tables| && TableIndex(tables[r.value.0], name) == Some(r.value.1)
    ensures r.Some? ==> forall t :: 0 <= t < r.value.0 ==> TableIndex(tables[t], name).None?
    ensures r.None? <==> forall t :: 0 <= t < |tables| ==> TableIndex(tables[t], name).None?
  {
    if tables == [] then None
    else
      var i := TableIndex(tables[0], name);
      if i.Some? then Some((0, i.value))
      else
        var r := FirstTableIndex(tables[1..], name);
        assert forall t :: 1 <= t < |tables| ==> tables[t] == tables[1..][t - 1];
        if r.None? then None else Some((r.value.0 + 1, r.value.1))
  }

  /** The table of a locale for the key `date.month_names` (`full`) or `date.abbr_month_names`. */
  function Pick(l: Locale, full: bool): Table {
    if full then l.monthNames else l.abbrMonthNames
  }

  /** Each available locale's table for the key, in order. */
  function LocaleTables(ls: seq<Locale>, full: bool): (r: seq<Table>)
    ensures |r| == |ls| && forall i :: 0 <= i < |ls| ==> r[i] == Pick(ls[i], full)
  {
    if ls == [] then [] else LocaleTables(ls[..|ls| - 1], full) + [Pick(ls[|ls| - 1], full)]
  }

  /** `month.to_i > 0 || /0+/ =~ month`: the month is read as a number. */
  predicate Numeric(month: string) {
    ToI(month) > 0 || '0' in month
  }

  class MonthNamesResolver {
    /** `@base_month_names`: extra tables, nil until set. */
    var baseNames: Option<seq<Table>>

    /** The singleton `instance`, before any configuration. */
    constructor()
      ensures baseNames.None? && BaseMonthNames() == []
    {
      baseNames := None;
    }

    /** `base_month_names`: the configured tables, or none. */
    function BaseMonthNames(): (r: seq<Table>)
      reads this
      ensures baseNames.Some? ==> r == baseNames.value
      ensures baseNames.None? ==> r == []
    {
      if baseNames.Some? then baseNames.value else []
    }

    /** `MonthNamesResolver.month_names(names)`, through the `base_month_names=` writer. */
    method SetMonthNames(names: Option<seq<Table>>)
      modifies this
      ensures baseNames == names
      ensures names.Some? ==> BaseMonthNames() == names.value
    {
      baseNames := names;
    }

    /**
     * `values_for_locales(key)`: the base tables, then each available
     * locale's table for the key, appended one by one.
     */
    method ValuesForLocales(i18n: I18nState, full: bool) returns (values: seq<Table>)
      ensures values == LocaleValues(i18n, full)
      ensures |values| == |BaseMonthNames()| + |i18n.available|
    {
      values := BaseMonthNames();
      var i := 0;
      while i < |i18n.available|
        invariant 0 <= i <= |i18n.available|
        invariant values == BaseMonthNames() + LocaleTables(i18n.available[..i], full)
      {
        assert i18n.available[..i + 1][..i] == i18n.available[..i];
        values := values + [Pick(i18n.available[i], full)];
        i := i + 1;
      }
      assert i18n.available[..i] == i18n.available;
    }

    /** What `values_for_locales` returns. */
    function LocaleValues(i18n: I18nState, full: bool): (r: seq<Table>)
      reads this
      ensures |r| == |BaseMonthNames()| + |i18n.available|
      ensures forall t :: 0 <= t < |BaseMonthNames()| ==> r[t] == BaseMonthNames()[t]
      ensures forall i :: 0 <= i < |i18n.available| ==> r[|BaseMonthNames()| + i] == Pick(i18n.available[i], full)
    {
      BaseMonthNames() + LocaleTables(i18n.available, full)
    }

    /**
     * `resolve(month, locale_agnostic)`: a numeric month as `to_i`; else the
     * capitalized name looked up in the full tables when longer than three
     * characters and in the abbreviated ones otherwise. The `Date` tables
     * serve when I18n is not loaded; otherwise the current locale's, or,
     * locale-agnostically, the first of the base and locale tables that
     * holds the name.
     */
    function Resolve(month: string, localeAgnostic: bool, i18n: Option<I18nState>): (r: Option<int>)
      reads this
      ensures Numeric(month) ==> r == Some(ToI(month))
    {
      if Numeric(month) then Some(ToI(month))
      else
        var full := |month| > 3;
        var name := Capitalize(month);
        if i18n.None? then
          var i := TableIndex(if full then MonthNames else AbbrMonthNames, name);
          if i.None? then None else Some(i.value)
        else if !localeAgnostic then
          var i := TableIndex(Pick(i18n.value.current, full), name);
          if i.None? then None else Some(i.value)
        else
          var f := FirstTableIndex(LocaleValues(i18n.value, full), name);
          if f.None? then None else Some(f.value.1)
    }

    /**
     * Without I18n the `locale_agnostic` flag changes nothing, and only the
     * `Date` tables are read: the answer is the first position of the
     * capitalized name there.
     */
    lemma WithoutI18n(month: string)
      requires !Numeric(month)
      ensures Resolve(month, true, None) == Resolve(month, false, None)
      ensures var table := if |month| > 3 then MonthNames else AbbrMonthNames;
        Resolve(month, false, None).Some? <==> exists j :: 0 <= j < |table| && table[j] == Some(Capitalize(month))
      ensures Resolve(month, false, None).Some? ==> 1 <= Resolve(month, false, None).value <= 12
      ensures var table := if |month| > 3 then MonthNames else AbbrMonthNames;
        var r := Resolve(month, false, None);
        r.Some? ==> 0 <= r.value < |table| && table[r.value] == Some(Capitalize(month)) &&
                    forall j :: 0 <= j < r.value ==> table[j] != Some(Capitalize(month))
    {
      var table := if |month| > 3 then MonthNames else AbbrMonthNames;
      var i := TableIndex(table, Capitalize(month));
      if i.Some? {
        assert table[0] == None;
      }
    }

    /**
     * With I18n and a locale-bound lookup, only the current locale's table
     * is read: the answer is the first position of the capitalized name there.
     */
    lemma CurrentLocaleOnly(month: string, i18n: I18nState, other: seq<Locale>)
      requires !Numeric(month)
      ensures Resolve(month, false, Some(i18n)) == Resolve(month, false, Some(I18nState(i18n.current, other)))
      ensures Resolve(month, false, Some(i18n)).Some? <==>
        Some(Capitalize(month)) in Pick(i18n.current, |month| > 3)
      ensures var table := Pick(i18n.current, |month| > 3);
        var r := Resolve(month, false, Some(i18n));
        r.Some? ==> 0 <= r.value < |table| && table[r.value] == Some(Capitalize(month)) &&
                    forall j :: 0 <= j < r.value ==> table[j] != Some(Capitalize(month))
    {
      var table := Pick(i18n.current, |month| > 3);
      if Some(Capitalize(month)) in table {
        var j :| 0 <= j < |table| && table[j] == Some(Capitalize(month));
      }
    }

    /**
     * The locale-agnostic lookup answers with the position of the name in
     * the first table that holds it, the base tables coming before the
     * locales' in order, and with nil when none does.
     */
    lemma LocaleAgnosticFirst(month: string, i18n: I18nState)
      requires !Numeric(month)
      ensures var tables := LocaleValues(i18n, |month| > 3);
        var r := Resolve(month, true, Some(i18n));
        (r.None? <==> forall t :: 0 <= t < |tables| ==> TableIndex(tables[t], Capitalize(month)).None?) &&
        (r.Some? ==> exists t :: (0 <= t < |tables| && TableIndex(tables[t], Capitalize(month)) == Some(r.value as nat) &&
                                 forall u :: 0 <= u < t ==> TableIndex(tables[u], Capitalize(month)).None?))
    {
      var tables := LocaleValues(i18n, |month| > 3);
      var f := FirstTableIndex(tables, Capitalize(month));
      if f.Some? {
        assert TableIndex(tables[f.value.0], Capitalize(month)) == Some(f.value.1);
      }
    }
  }
}
