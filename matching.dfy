/**
 * Whole-string matching of a compiled format. A compiled format is a list of
 * segments: literal characters and token fragments. The single-format
 * regexp is `^(?>X)$` and each branch of a format set is `(?>X)` inside
 * `\A(?:…)\z`; an atomic group commits to the first match of X that the
 * backtracking engine finds, and the anchor after it then either holds or
 * the branch fails.
 */
module Matching {
  import opened Text
  import opened Outcomes
  import opened Tokens

  /** A compiled segment: a literal character, or a token's fragment. */
  datatype Segment = Lit(c: char) | Tok(spec: TokenSpec)

  /** Segments that the compiler wraps in a capture group: tokens with a role. */
  predicate Captures(s: Segment) {
    s.Tok? && s.spec.role.Some?
  }

  predicate IsAmpmLetter(c: char) { c == 'a' || c == 'A' || c == 'p' || c == 'P' }

  predicate IsMLetter(c: char) { c == 'm' || c == 'M' }

  /** `[aApP]\.?[mM]\.?` */
  predicate IsMeridianText(w: string) {
    |w| >= 2 && IsAmpmLetter(w[0]) &&
    var i := if w[1] == '.' then 2 else 1;
    i < |w| && IsMLetter(w[i]) && (|w| == i + 1 || (|w| == i + 2 && w[i + 1] == '.'))
  }

  /** `[+-]\d{2}:?\d{2}` */
  predicate IsOffsetText(w: string) {
    (|w| == 5 || |w| == 6) && (w[0] == '+' || w[0] == '-') && AllDigits(w[1..3]) &&
    (if |w| == 6 then w[3] == ':' && AllDigits(w[4..6]) else AllDigits(w[3..5]))
  }

  /** The language of each fragment: the strings it matches on its own. */
  predicate KindFits(kind: Kind, w: string) {
    match kind
    case Word3to9 => 3 <= |w| <= 9 && forall i :: 0 <= i < |w| ==> IsWordChar(w[i])
    case Digits2 => |w| == 2 && AllDigits(w)
    case Digits1to2 => 1 <= |w| <= 2 && AllDigits(w)
    case Digits4 => |w| == 4 && AllDigits(w)
    case Digits4or2 => (|w| == 4 || |w| == 2) && AllDigits(w)
    case Digits1to6 => 1 <= |w| <= 6 && AllDigits(w)
    case Ampm => IsMeridianText(w)
    case ZoneOffset => IsOffsetText(w)
    case ZoneAbbr => 1 <= |w| <= 4 && forall i :: 0 <= i < |w| ==> IsUpper(w[i])
    case OptSpace => |w| == 0 || (|w| == 1 && IsSpace(w[0]))
  }

  predicate SegFits(s: Segment, w: string) {
    match s
    case Lit(c) => w == [c]
    case Tok(spec) => KindFits(spec.kind, w)
  }

  /** The longest string a segment can match. */
  function SegMax(s: Segment): (n: nat)
    ensures forall w :: SegFits(s, w) ==> |w| <= n
  {
    match s
    case Lit(_) => 1
    case Tok(spec) =>
      match spec.kind
      case Word3to9 => 9
      case Digits2 => 2
      case Digits1to2 => 2
      case Digits4 => 4
      case Digits4or2 => 4
      case Digits1to6 => 6
      case Ampm => 4
      case ZoneOffset => 6
      case ZoneAbbr => 4
      case OptSpace => 1
  }

  predicate Decreasing(s: seq<nat>) {
    forall i, j :: 0 <= i < j < |s| ==> s[i] > s[j]
  }

  /** The prefix lengths n, n-1, …, 0 of `t` that the segment matches, longest first. */
  function FitsDown(s: Segment, t: string, n: nat): (r: seq<nat>)
    requires n <= |t|
    ensures forall m: nat :: m in r <==> m <= n && SegFits(s, t[..m])
    ensures Decreasing(r)
  {
    var here := if SegFits(s, t[..n]) then [n] else [];
    if n == 0 then here
    else
      var rest := FitsDown(s, t, n - 1);
      assert forall i :: 0 <= i < |rest| ==> rest[i] in rest;
      here + rest
  }

  /**
   * The lengths a segment tries, in the engine's order. Every quantifier
   * in the catalog's fragments is greedy, and the alternation `\d{4}|\d{2}`
   * lists the longer form first, so the engine tries the lengths the
   * fragment can match from the longest down.
   */
  function Candidates(s: Segment, t: string): (r: seq<nat>)
    ensures forall m: nat :: m in r <==> m <= |t| && SegFits(s, t[..m])
    ensures Decreasing(r)
  {
    FitsDown(s, t, if |t| < SegMax(s) then |t| else SegMax(s))
  }

  /** The segments that capture, in order, and the roles they carry. */
  function CapturingSegs(p: seq<Segment>): (r: seq<Segment>)
    ensures |r| <= |p|
    ensures forall i :: 0 <= i < |r| ==> Captures(r[i])
  {
    if p == [] then []
    else (if Captures(p[0]) then [p[0]] else []) + CapturingSegs(p[1..])
  }

  /** The captured texts fit the fragments of the capturing segments, one each. */
  ghost predicate CapturesFit(p: seq<Segment>, caps: seq<string>) {
    var cs := CapturingSegs(p);
    |caps| == |cs| && forall i :: 0 <= i < |caps| ==> SegFits(cs[i], caps[i])
  }

  /** The pattern, read as a plain concatenation, matches all of `w`. */
  ghost predicate Accepts(p: seq<Segment>, w: string)
    decreases |p|
  {
    if p == [] then w == []
    else exists n :: 0 <= n <= |w| && SegFits(p[0], w[..n]) && Accepts(p[1..], w[n..])
  }

  /** The first match of a pattern at the start of a string: its length and its captures. */
  datatype Match = Match(length: nat, captures: seq<string>)

  lemma CapturesFitCons(p: seq<Segment>, w: string, caps: seq<string>)
    requires p != [] && SegFits(p[0], w) && CapturesFit(p[1..], caps)
    ensures CapturesFit(p, (if Captures(p[0]) then [w] else []) + caps)
  {
    var all := (if Captures(p[0]) then [w] else []) + caps;
    var cs := CapturingSegs(p);
    assert cs == (if Captures(p[0]) then [p[0]] else []) + CapturingSegs(p[1..]);
    if Captures(p[0]) {
      forall i | 0 <= i < |all|
        ensures SegFits(cs[i], all[i])
      {
        if i > 0 {
          assert cs[i] == CapturingSegs(p[1..])[i - 1] && all[i] == caps[i - 1];
        }
      }
    }
  }

  /**
   * The backtracking search: the first split of `t` whose pieces the
   * segments match in turn, trying each segment's lengths in the engine's
   * order. It stops at the first success and does not need to reach the
   * end of `t`.
   */
  function FirstMatch(p: seq<Segment>, t: string): (r: Option<Match>)
    ensures r.Some? ==> r.value.length <= |t| && Accepts(p, t[..r.value.length])
    ensures r.Some? ==> CapturesFit(p, r.value.captures)
    decreases |p|, 1, 0
  {
    if p == [] then Some(Match(0, [])) else TryLengths(p, t, Candidates(p[0], t))
  }

  /** Tries the remaining candidate lengths of the first segment, in order. */
  function TryLengths(p: seq<Segment>, t: string, lengths: seq<nat>): (r: Option<Match>)
    requires p != []
    requires forall m: nat :: m in lengths ==> m <= |t| && SegFits(p[0], t[..m])
    ensures r.Some? ==> r.value.length <= |t| && Accepts(p, t[..r.value.length])
    ensures r.Some? ==> CapturesFit(p, r.value.captures)
    decreases |p|, 0, |lengths|
  {
    if lengths == [] then None
    else
      var n := lengths[0];
      assert n in lengths;
      var rest := FirstMatch(p[1..], t[n..]);
      if rest.Some? then
        var len := n + rest.value.length;
        var w := t[..len];
        assert w[..n] == t[..n] && w[n..] == t[n..][..rest.value.length];
        CapturesFitCons(p, t[..n], rest.value.captures);
        Some(Match(len, (if Captures(p[0]) then [t[..n]] else []) + rest.value.captures))
      else
        assert forall m :: m in lengths[1..] ==> m in lengths;
        TryLengths(p, t, lengths[1..])
  }

  lemma {:induction false} TryLengthsFinds(p: seq<Segment>, t: string, lengths: seq<nat>, m: nat)
    requires p != []
    requires forall k: nat :: k in lengths ==> k <= |t| && SegFits(p[0], t[..k])
    requires m in lengths && FirstMatch(p[1..], t[m..]).Some?
    ensures TryLengths(p, t, lengths).Some?
    decreases |lengths|
  {
    if lengths[0] != m {
      assert forall k :: k in lengths[1..] ==> k in lengths;
      TryLengthsFinds(p, t, lengths[1..], m);
    }
  }

  /** The search fails only when no prefix of `t` matches the pattern. */
  lemma {:induction false} FirstMatchComplete(p: seq<Segment>, t: string, n: nat)
    requires n <= |t| && Accepts(p, t[..n])
    ensures FirstMatch(p, t).Some?
    decreases |p|
  {
    if p != [] {
      var w := t[..n];
      var m :| 0 <= m <= |w| && SegFits(p[0], w[..m]) && Accepts(p[1..], w[m..]);
      assert w[..m] == t[..m];
      assert w[m..] == t[m..][..n - m];
      FirstMatchComplete(p[1..], t[m..], n - m);
      TryLengthsFinds(p, t, Candidates(p[0], t), m);
    }
  }

  /**
   * `(?>X)` followed by an end anchor: the first match of X must consume
   * the whole string. Its captures, one per capturing segment.
   */
  function AnchoredMatch(p: seq<Segment>, t: string): (r: Option<seq<string>>)
    ensures r.Some? ==> Accepts(p, t) && CapturesFit(p, r.value)
  {
    var m := FirstMatch(p, t);
    if m.Some? && m.value.length == |t| then
      assert t[..|t|] == t;
      Some(m.value.captures)
    else None
  }

  /** When the whole string matches, the captures are as many as the capturing segments. */
  lemma AnchoredMatchCaptureCount(p: seq<Segment>, t: string)
    requires AnchoredMatch(p, t).Some?
    ensures |AnchoredMatch(p, t).value| == |CapturingSegs(p)|
  {
  }

  /** A string no reading of the pattern accepts is never matched. */
  lemma AnchoredMatchSound(p: seq<Segment>, t: string)
    requires !Accepts(p, t)
    ensures AnchoredMatch(p, t).None?
  {
  }

  /** A string that no prefix-reading accepts fails even the unanchored search. */
  lemma FirstMatchNone(p: seq<Segment>, t: string)
    requires FirstMatch(p, t).None?
    ensures forall n :: 0 <= n <= |t| ==> !Accepts(p, t[..n])
  {
    forall n | 0 <= n <= |t|
      ensures !Accepts(p, t[..n])
    {
      if Accepts(p, t[..n]) {
        FirstMatchComplete(p, t, n);
      }
    }
  }
}
