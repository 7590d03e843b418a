/**
 * The token catalog of the parser (`@format_tokens`, `@format_components`
 * and `sorted_token_keys` in lib/timeliness/parser.rb).
 */
module Tokens {
  import opened Outcomes

  /** The semantic roles a token can carry. */
  datatype Role = Year | Month | Day | Hour | Min | Sec | Usec | Meridian | Offset

  /** The regexp fragments the catalog uses, one constructor per fragment text. */
  datatype Kind =
    | Word3to9     // \w{3,9}
    | Digits2      // \d{2}
    | Digits1to2   // \d{1,2}
    | Digits4      // \d{4}
    | Digits4or2   // \d{4}|\d{2}
    | Digits1to6   // \d{1,6}
    | Ampm         // [aApP]\.?[mM]\.?
    | ZoneOffset   // [+-]\d{2}:?\d{2}
    | ZoneAbbr     // [A-Z]{1,4}
    | OptSpace     // \s?

  /**
   * A token spelling: never empty, so every substitution makes progress,
   * and made of letters and `_` only, so it never contains a character
   * that `compile!` escapes or a placeholder's `%`, `<`, `>` or digits.
   */
  type Key = s: string | |s| > 0 && forall i :: 0 <= i < |s| ==> IsTokenChar(s[i]) witness "_"

  /** One catalog entry: the token spelling, its fragment and its role, if any. */
  datatype TokenSpec = TokenSpec(key: Key, kind: Kind, role: Option<Role>)

  /** The catalog, in the order the source lists it. */
  const Ddd := TokenSpec("ddd", Word3to9, None)
  const Dd := TokenSpec("dd", Digits2, Some(Day))
  const D1 := TokenSpec("d", Digits1to2, Some(Day))
  const Mmm := TokenSpec("mmm", Word3to9, Some(Month))
  const Mm := TokenSpec("mm", Digits2, Some(Month))
  const M1 := TokenSpec("m", Digits1to2, Some(Month))
  const Yyyy := TokenSpec("yyyy", Digits4, Some(Year))
  const Yy := TokenSpec("yy", Digits4or2, Some(Year))
  const Hh := TokenSpec("hh", Digits2, Some(Hour))
  const H1 := TokenSpec("h", Digits1to2, Some(Hour))
  const Nn := TokenSpec("nn", Digits2, Some(Min))
  const N1 := TokenSpec("n", Digits1to2, Some(Min))
  const Ss := TokenSpec("ss", Digits2, Some(Sec))
  const S1 := TokenSpec("s", Digits1to2, Some(Sec))
  const U1 := TokenSpec("u", Digits1to6, Some(Usec))
  const AmPm := TokenSpec("ampm", Ampm, Some(Meridian))
  const Zo := TokenSpec("zo", ZoneOffset, Some(Offset))
  const Tz := TokenSpec("tz", ZoneAbbr, None)
  const Space := TokenSpec("_", OptSpace, None)

  const FormatTokens: seq<TokenSpec> := [
    Ddd, Dd, D1, Mmm, Mm, M1, Yyyy, Yy, Hh, H1, Nn, N1, Ss, S1, U1, AmPm, Zo, Tz, Space
  ]

  /**
   * `@format_components`: the position of each role in the 8-slot
   * component array `[year, month, day, hour, min, sec, usec, offset]`.
   * The meridian has no position.
   */
  function SlotOf(role: Role): (slot: Option<nat>)
    ensures slot.Some? ==> slot.value < 8
    ensures slot.None? <==> role == Meridian
  {
    match role
    case Year => Some(0)
    case Month => Some(1)
    case Day => Some(2)
    case Hour => Some(3)
    case Min => Some(4)
    case Sec => Some(5)
    case Usec => Some(6)
    case Offset => Some(7)
    case Meridian => None
  }

  /** The role whose value lands in each slot: the inverse of `SlotOf`. */
  function SlotRole(p: nat): (r: Role)
    requires p < 8
    ensures SlotOf(r) == Some(p)
  {
    [Year, Month, Day, Hour, Min, Sec, Usec, Offset][p]
  }

  /** Distinct roles have distinct slots. */
  lemma SlotOfInjective(a: Role, b: Role)
    requires SlotOf(a).Some? && SlotOf(a) == SlotOf(b)
    ensures a == b
  {
  }

  /** The characters that occur in some token spelling. */
  predicate IsTokenChar(c: char) {
    c in "dmyhnsuapzot_"
  }

  predicate LongestFirst(s: seq<TokenSpec>) {
    forall i, j :: 0 <= i < j < |s| ==> |s[i].key| >= |s[j].key|
  }

  /** Inserts `t` before the first entry that is not longer than it. */
  function InsertByLength(t: TokenSpec, s: seq<TokenSpec>): (r: seq<TokenSpec>)
    ensures multiset(r) == multiset(s) + multiset{t}
    ensures |r| == |s| + 1
    ensures forall x :: x in r ==> x == t || x in s
  {
    if s == [] || |s[0].key| <= |t.key| then [t] + s
    else
      assert s == [s[0]] + s[1..];
      [s[0]] + InsertByLength(t, s[1..])
  }

  /** A stable sort by decreasing spelling length (ties keep catalog order). */
  function SortByLength(s: seq<TokenSpec>): (r: seq<TokenSpec>)
    ensures multiset(r) == multiset(s)
  {
    if s == [] then []
    else
      assert s == [s[0]] + s[1..];
      InsertByLength(s[0], SortByLength(s[1..]))
  }

  lemma {:induction false} InsertByLengthSorted(t: TokenSpec, s: seq<TokenSpec>)
    requires LongestFirst(s)
    ensures LongestFirst(InsertByLength(t, s))
  {
    if s != [] && |s[0].key| > |t.key| {
      var tail := s[1..];
      InsertByLengthSorted(t, tail);
      var r := InsertByLength(t, tail);
      forall x | x in r
        ensures |s[0].key| >= |x.key|
      {
        if x != t {
          var k :| 0 <= k < |tail| && tail[k] == x;
          assert s[k + 1] == x;
        }
      }
      var full := [s[0]] + r;
      assert InsertByLength(t, s) == full;
      forall i, j | 0 <= i < j < |full|
        ensures |full[i].key| >= |full[j].key|
      {
        if i > 0 {
          assert full[i] == r[i - 1] && full[j] == r[j - 1];
        } else {
          assert full[j] == r[j - 1] && full[j] in r;
        }
      }
    } else if s != [] {
      var full := [t] + s;
      forall i, j | 0 <= i < j < |full|
        ensures |full[i].key| >= |full[j].key|
      {
        if i > 0 {
          assert full[i] == s[i - 1] && full[j] == s[j - 1];
        } else {
          assert full[j] == s[j - 1];
          assert j - 1 == 0 || |s[0].key| >= |s[j - 1].key|;
        }
      }
    }
  }

  lemma {:induction false} SortByLengthSorted(s: seq<TokenSpec>)
    ensures LongestFirst(SortByLength(s))
  {
    if s != [] {
      SortByLengthSorted(s[1..]);
      InsertByLengthSorted(s[0], SortByLength(s[1..]));
    }
  }

  /**
   * `sorted_token_keys`: the catalog ordered longest spelling first, so that
   * `yyyy` is substituted before `yy` and `ddd` before `dd` and `d`.
   * Ruby's `sort` is not stable; the model fixes catalog order among
   * spellings of equal length.
   */
  function SortedTokenKeys(): (r: seq<TokenSpec>)
    ensures multiset(r) == multiset(FormatTokens)
    ensures LongestFirst(r)
  {
    SortByLengthSorted(FormatTokens);
    SortByLength(FormatTokens)
  }
}
