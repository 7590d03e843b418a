/**
 * `Timeliness::Format` (lib/timeliness/format.rb): the object that
 * compiles one format string, and the `process` method it defines, which
 * turns the captured strings into the 8-slot component array
 * `[year, month, day, hour, min, sec, usec, offset]`.
 */
module Formats {
  import opened Text
  import opened Outcomes
  import opened Tokens
  import opened Matching
  import opened Helpers
  import opened Rewriting

  /** A substitution result with `out` put in front of its pieces; errors pass through. */
  function Prepend(out: seq<Piece>, r: Result<(seq<Piece>, seq<TokenSpec>)>): Result<(seq<Piece>, seq<TokenSpec>)>
  {
    if r.Err? then r else Ok((out + r.value.0, r.value.1))
  }

  lemma PrependNothing(r: Result<(seq<Piece>, seq<TokenSpec>)>)
    ensures Prepend([], r) == r
  {
    if r.Ok? {
      assert [] + r.value.0 == r.value.0;
    }
  }

  lemma PrependTwice(out: seq<Piece>, x: seq<Piece>, r: Result<(seq<Piece>, seq<TokenSpec>)>)
    ensures Prepend(out, Prepend(x, r)) == Prepend(out + x, r)
  {
    if r.Ok? {
      assert out + (x + r.value.0) == (out + x) + r.value.0;
    }
  }

  lemma HolesBelowSuffix(ps: seq<Piece>, i: nat, n: nat, m: nat)
    requires i <= |ps| && HolesBelow(ps, n) && n <= m
    ensures HolesBelow(ps[i..], m)
  {
    forall k | 0 <= k < |ps[i..]| && ps[i..][k].Hole?
      ensures ps[i..][k].index < m
    {
      assert ps[i..][k] == ps[i + k];
    }
  }

  /** `format.gsub!(/([\.\\])/, '\\\\\1')`, one character at a time. */
  method Escape(s: string) returns (ps: seq<Piece>)
    ensures ps == Escaped(s)
  {
    ps := [];
    var i := 0;
    while i < |s|
      invariant 0 <= i <= |s| && |ps| == i
      invariant forall j :: 0 <= j < i ==> ps[j] == EscapePiece(s[j])
    {
      ps := ps + [EscapePiece(s[i])];
      i := i + 1;
    }
  }

  /**
   * `format.gsub!(token) { … }`: a left-to-right scan that replaces each
   * occurrence of the spelling in scannable characters by the next
   * placeholder and records the token, or raises when its role is taken.
   */
  method Substitute(ps: seq<Piece>, tok: TokenSpec, found: seq<TokenSpec>, fs: string)
    returns (r: Result<(seq<Piece>, seq<TokenSpec>)>)
    requires HolesBelow(ps, |found|)
    ensures r == Substitution(ps, tok, found, fs)
  {
    var out: seq<Piece> := [];
    var tokens := found;
    var i := 0;
    assert ps[0..] == ps;
    PrependNothing(Substitution(ps, tok, found, fs));
    while i < |ps|
      invariant 0 <= i <= |ps| && found <= tokens
      invariant HolesBelow(ps[i..], |tokens|)
      invariant Substitution(ps, tok, found, fs) == Prepend(out, Substitution(ps[i..], tok, tokens, fs))
      decreases |ps| - i
    {
      var rest := ps[i..];
      if KeyAt(rest, tok.key) {
        if RoleTaken(tokens, tok.role) {
          return Err(CompilationFailed(fs));
        }
        assert rest[|tok.key|..] == ps[i + |tok.key|..];
        HolesBelowSuffix(ps, i + |tok.key|, |found|, |tokens| + 1);
        PrependTwice(out, [Hole(|tokens|)], Substitution(ps[i + |tok.key|..], tok, tokens + [tok], fs));
        out := out + [Hole(|tokens|)];
        tokens := tokens + [tok];
        i := i + |tok.key|;
      } else {
        assert rest[1..] == ps[i + 1..];
        PrependTwice(out, [ps[i]], Substitution(ps[i + 1..], tok, tokens, fs));
        out := out + [ps[i]];
        i := i + 1;
      }
    }
    assert out + [] == out;
    r := Ok((out, tokens));
  }

  /** `Definitions.sorted_token_keys.each { |token| format.gsub!(token) { … } }`. */
  method SubstituteKeys(escaped: seq<Piece>, keys: seq<TokenSpec>, fs: string)
    returns (r: Result<(seq<Piece>, seq<TokenSpec>)>)
    requires HolesBelow(escaped, 0)
    ensures r == SubstituteAll(escaped, keys, [], fs)
  {
    var ps, found := escaped, [];
    var k := 0;
    while k < |keys|
      invariant 0 <= k <= |keys| && HolesBelow(ps, |found|)
      invariant SubstituteAll(escaped, keys, [], fs) == SubstituteAll(ps, keys[k..], found, fs)
    {
      var step := Substitute(ps, keys[k], found, fs);
      assert keys[k..][1..] == keys[k + 1..];
      if step.Err? {
        return step;
      }
      ps, found := step.value.0, step.value.1;
      k := k + 1;
    }
    r := Ok((ps, found));
  }

  /**
   * `format.gsub!(/%<(\d+)>/) { … }`: each placeholder becomes its token's
   * fragment and every other piece a literal; the roles met on the way are
   * appended to `token_order`.
   */
  method Expand(ps: seq<Piece>, found: seq<TokenSpec>) returns (pattern: seq<Segment>, order: seq<Role>)
    requires HolesBelow(ps, |found|)
    ensures (pattern, order) == Expansion(ps, found)
  {
    pattern, order := [], [];
    var i := 0;
    assert ps[0..] == ps;
    assert [] + Expansion(ps, found).0 == Expansion(ps, found).0;
    assert [] + Expansion(ps, found).1 == Expansion(ps, found).1;
    while i < |ps|
      invariant 0 <= i <= |ps| && HolesBelow(ps[i..], |found|)
      invariant Expansion(ps, found) == (pattern + Expansion(ps[i..], found).0, order + Expansion(ps[i..], found).1)
      decreases |ps| - i
    {
      var rest := Expansion(ps[i + 1..], found);
      assert ps[i..][1..] == ps[i + 1..];
      assert ps[i..][0] == ps[i];
      HolesBelowSuffix(ps, i + 1, |found|, |found|);
      match ps[i] {
        case Hole(n) =>
          assert n < |found|;
          var tok := found[n];
          var roles := if tok.role.Some? then [tok.role.value] else [];
          assert Expansion(ps[i..], found) == ([Tok(tok)] + rest.0, roles + rest.1);
          assert pattern + ([Tok(tok)] + rest.0) == (pattern + [Tok(tok)]) + rest.0;
          assert order + (roles + rest.1) == (order + roles) + rest.1;
          pattern := pattern + [Tok(tok)];
          order := order + roles;
        case Ch(c) =>
          assert Expansion(ps[i..], found) == ([Lit(c)] + rest.0, rest.1);
          assert pattern + ([Lit(c)] + rest.0) == (pattern + [Lit(c)]) + rest.0;
          pattern := pattern + [Lit(c)];
        case Esc(b) =>
          assert Expansion(ps[i..], found) == ([Lit(EscapedChar(b))] + rest.0, rest.1);
          assert pattern + ([Lit(EscapedChar(b))] + rest.0) == (pattern + [Lit(EscapedChar(b))]) + rest.0;
          pattern := pattern + [Lit(EscapedChar(b))];
      }
      i := i + 1;
    }
    assert pattern + [] == pattern && order + [] == order;
  }

  /**
   * `define_process_method(components)`: the 8-slot table of the generated
   * `process`, each role with a slot recorded at its slot's position and
   * every other position nil. The meridian has no slot.
   */
  method DefineProcess(order: seq<Role>) returns (slots: seq<Option<Role>>)
    ensures |slots| == 8
    ensures forall p :: 0 <= p < 8 ==> slots[p] == if SlotRole(p) in order then Some(SlotRole(p)) else None
  {
    var values := new Option<Role>[8](_ => None);
    for k := 0 to |order|
      invariant forall p :: 0 <= p < 8 ==> values[p] == if SlotRole(p) in order[..k] then Some(SlotRole(p)) else None
    {
      assert order[..k + 1] == order[..k] + [order[k]];
      var position := SlotOf(order[k]);
      if position.Some? {
        values[position.value] := Some(order[k]);
        forall p | 0 <= p < 8 && SlotRole(p) == order[k]
          ensures p == position.value
        {
          SlotOfInjective(SlotRole(p), order[k]);
        }
      } else {
        forall p | 0 <= p < 8
          ensures SlotRole(p) != order[k]
        {
          assert SlotOf(SlotRole(p)).Some?;
        }
      }
    }
    assert order[..|order|] == order;
    slots := values[..];
  }

  /** The answer of a call that only updates state: `compile!` returns `self`, which carries nothing further. */
  datatype Unit = Unit

  class Format {
    var formatString: string
    /** Whether `compile!` has run: `regexp` is set and `process` defined. */
    var compiled: bool
    /** `regexp_string`, as segments. */
    var pattern: seq<Segment>
    /** The parameters of the generated `process`, in order. */
    var tokenOrder: seq<Role>
    var tokenCount: nat
    /** The body of the generated `process`: the role feeding each of the 8 slots. */
    var slots: seq<Option<Role>>

    /**
     * A compiled format counts its roles, lists them as the capturing
     * fragments of the pattern give them, without repeats, and feeds each
     * slot from the role that owns it.
     */
    ghost predicate Valid()
      reads this
    {
      compiled ==>
        tokenCount == |tokenOrder| <= 9 && tokenOrder == RolesOf(pattern) && NoDup(tokenOrder) &&
        RenderPattern(pattern) == formatString && |slots| == 8 &&
        forall p :: 0 <= p < 8 ==> slots[p] == if SlotRole(p) in tokenOrder then Some(SlotRole(p)) else None
    }

    /** `Format.new(format_string)`. */
    constructor(formatString: string)
      ensures this.formatString == formatString && !compiled && Valid()
    {
      this.formatString := formatString;
      compiled := false;
      pattern, tokenOrder, tokenCount, slots := [], [], 0, [];
    }

    /** The format as the value `Compiled` describes. */
    function Value(): CompiledFormat
      reads this
    {
      CompiledFormat(formatString, pattern, tokenOrder)
    }

    /**
     * `compile!` with `keys` as `sorted_token_keys`. It raises
     * CompilationFailed, before any field is set, exactly when `Compiled`
     * reports the error; otherwise the object holds that compiled format.
     */
    method Compile(keys: seq<TokenSpec>) returns (r: Result<Unit>)
      requires Valid()
      modifies this
      ensures r.Err? <==> Compiled(old(formatString), keys).Err?
      ensures r.Err? ==> r.error == CompilationFailed(formatString) && unchanged(this)
      ensures r.Ok? ==> compiled && formatString == old(formatString) && Value() == Compiled(formatString, keys).value
      ensures Valid()
    {
      var fs := formatString;
      var ps := Escape(fs);
      var sub := SubstituteKeys(ps, keys, fs);
      if sub.Err? {
        CompiledFailsIffRoleRepeats(fs, keys);
        return Err(sub.error);
      }
      var found;
      ps, found := sub.value.0, sub.value.1;
      var p, order := Expand(ps, found);
      var table := DefineProcess(order);
      pattern, tokenOrder, tokenCount, slots, compiled := p, order, |order|, table, true;
      CompiledRoundTrip(fs, keys);
      CompiledOrder(fs, keys);
      r := Ok(Unit);
    }
  }

  // ------------------------------------------------------------ process

  /**
   * What the component conversions read besides the captures: the current
   * year (`Time.now.year`), the ambiguous-year threshold and the month
   * tables `month_index` consults.
   */
  datatype Context = Context(currentYear: int, threshold: int,
                             monthNames: seq<Option<string>>, abbrMonthNames: seq<Option<string>>)

  /**
   * The argument bound to the parameter named after `role` when `process`
   * is called with `args`: the one at the role's position in the order.
   * A role that is not a parameter is a local that is nil.
   */
  function ArgFor(order: seq<Role>, args: seq<Option<string>>, role: Role): (v: Option<string>)
    requires |args| >= |order|
    ensures role !in order ==> v.None?
    ensures forall i :: 0 <= i < |order| && order[i] == role && role !in order[..i] ==> v == args[i]
  {
    if order == [] then None
    else if order[0] == role then args[0]
    else
      var v := ArgFor(order[1..], args[1..], role);
      assert forall i :: 1 <= i < |order| ==> order[1..][..i - 1] == order[..i][1..] && order[1..][i - 1] == order[i];
      v
  }

  /**
   * The code `@format_components` gives each role, applied to its
   * argument: `unambiguous_year(year)`, `month_index(month)`,
   * `full_hour(hour, meridian ||= nil)`, `microseconds(usec)`,
   * `offset_in_seconds(offset)`, and `to_i` for day, min and sec.
   * `year.length` and `month.match?` on nil raise NoMethodError;
   * `nil.to_i`, `".#{nil}".to_f` and a failed `nil =~` all give 0.
   */
  function Convert(role: Role, v: Option<string>, meridian: Option<string>, ctx: Context): Result<Option<int>>
  {
    match role
    case Year => if v.None? then Err(NilReceiver) else Ok(Some(UnambiguousYear(v.value, ctx.currentYear, ctx.threshold)))
    case Month => if v.None? then Err(NilReceiver) else Ok(MonthIndex(v.value, ctx.monthNames, ctx.abbrMonthNames))
    case Hour =>
      var h := FullHour(v, meridian);
      if h.Err? then Err(h.error) else Ok(Some(h.value))
    case Usec => Ok(Some(Microseconds(if v.None? then "" else v.value)))
    case Offset => Ok(Some(OffsetInSeconds(if v.None? then "" else v.value)))
    case _ => Ok(Some(IntOf(v)))
  }

  /** A conversion raises only on a nil year or month, or on an `am` hour out of range. */
  lemma ConvertErrors(role: Role, v: Option<string>, meridian: Option<string>, ctx: Context)
    ensures var c := Convert(role, v, meridian, ctx);
      c.Err? ==> (c.error == NilReceiver && (role == Year || role == Month) && v.None?) ||
                 (c.error == MeridianHour && role == Hour)
  {
  }

  /** Slot `p` of the generated array: nil unless its role is a parameter, else that role's code. */
  function SlotValue(order: seq<Role>, args: seq<Option<string>>, ctx: Context, p: nat): Result<Option<int>>
    requires p < 8 && |args| >= |order|
  {
    var role := SlotRole(p);
    if role !in order then Ok(None) else Convert(role, ArgFor(order, args, role), ArgFor(order, args, Meridian), ctx)
  }

  /** The array literal from slot `p` on, evaluated left to right: the first raise ends it. */
  function SlotValues(order: seq<Role>, args: seq<Option<string>>, ctx: Context, p: nat): (r: Result<seq<Option<int>>>)
    requires p <= 8 && |args| >= |order|
    ensures r.Ok? <==> forall q :: p <= q < 8 ==> SlotValue(order, args, ctx, q).Ok?
    ensures r.Ok? ==> |r.value| == 8 - p && forall q :: p <= q < 8 ==> r.value[q - p] == SlotValue(order, args, ctx, q).value
    ensures r.Err? ==> exists q :: p <= q < 8 && SlotValue(order, args, ctx, q) == Err(r.error) &&
                                 (forall q' :: p <= q' < q ==> SlotValue(order, args, ctx, q').Ok?)
    decreases 8 - p
  {
    if p == 8 then Ok([])
    else
      var v := SlotValue(order, args, ctx, p);
      if v.Err? then Err(v.error)
      else
        var rest := SlotValues(order, args, ctx, p + 1);
        if rest.Err? then rest else Ok([v.value] + rest.value)
  }

  /**
   * The generated `process(*args)`: too few arguments for its parameters
   * raise ArgumentError, surplus ones go to `*_`; the result is the 8 slots
   * in fixed positions, or the first error a conversion raises.
   */
  function Process(order: seq<Role>, args: seq<Option<string>>, ctx: Context): (r: Result<seq<Option<int>>>)
    ensures |args| < |order| ==> r == Err(WrongArity)
    ensures |args| >= |order| && r.Err? ==> r.error == NilReceiver || r.error == MeridianHour
    ensures r.Ok? ==> |r.value| == 8 && forall p :: 0 <= p < 8 ==> SlotValue(order, args, ctx, p) == Ok(r.value[p])
    ensures r.Ok? ==> forall p :: 0 <= p < 8 && SlotRole(p) !in order ==> r.value[p].None?
    ensures |args| >= |order| ==> (r.Ok? <==> forall p :: 0 <= p < 8 ==> SlotValue(order, args, ctx, p).Ok?)
  {
    if |args| < |order| then Err(WrongArity)
    else
      var r := SlotValues(order, args, ctx, 0);
      assert r.Err? ==> r.error == NilReceiver || r.error == MeridianHour by {
        if r.Err? {
          var q :| 0 <= q < 8 && SlotValue(order, args, ctx, q) == Err(r.error);
          ConvertErrors(SlotRole(q), ArgFor(order, args, SlotRole(q)), ArgFor(order, args, Meridian), ctx);
        }
      }
      r
  }

  /**
   * The i-th argument feeds the slot of the i-th role of `token_order`,
   * through that role's conversion.
   */
  lemma ProcessFeedsSlot(order: seq<Role>, args: seq<Option<string>>, ctx: Context, i: nat)
    requires NoDup(order) && i < |args| && i < |order| && order[i] != Meridian
    requires Process(order, args, ctx).Ok?
    ensures var p := SlotOf(order[i]).value;
      Ok(Process(order, args, ctx).value[p]) == Convert(order[i], args[i], ArgFor(order, args, Meridian), ctx)
  {
    SlotOfArg(order, args, ctx, i);
  }

  /** The slot of the i-th role holds that role's conversion of the i-th argument. */
  lemma SlotOfArg(order: seq<Role>, args: seq<Option<string>>, ctx: Context, i: nat)
    requires NoDup(order) && |args| >= |order| && i < |order| && order[i] != Meridian
    ensures SlotValue(order, args, ctx, SlotOf(order[i]).value) == Convert(order[i], args[i], ArgFor(order, args, Meridian), ctx)
  {
    var p := SlotOf(order[i]).value;
    SlotOfInjective(SlotRole(p), order[i]);
    ArgForAt(order, args, i);
    SlotPresent(order, args, ctx, p, args[i]);
  }

  /** Without repeated roles, the i-th role's argument is the i-th one. */
  lemma ArgForAt(order: seq<Role>, args: seq<Option<string>>, i: nat)
    requires NoDup(order) && |args| >= |order| && i < |order|
    ensures order[i] in order && ArgFor(order, args, order[i]) == args[i]
  {
    assert forall j :: 0 <= j < i ==> order[..i][j] == order[j] != order[i];
  }

  lemma {:induction false} ArgForPrefix(order: seq<Role>, args: seq<Option<string>>, extra: seq<Option<string>>, role: Role)
    requires |args| >= |order|
    ensures ArgFor(order, args + extra, role) == ArgFor(order, args, role)
  {
    if order != [] && order[0] != role {
      assert (args + extra)[1..] == args[1..] + extra;
      ArgForPrefix(order[1..], args[1..], extra, role);
    }
  }

  /** Arguments beyond the parameters are absorbed by `*_` and change nothing. */
  lemma ProcessIgnoresSurplus(order: seq<Role>, args: seq<Option<string>>, extra: seq<Option<string>>, ctx: Context)
    requires |args| >= |order|
    ensures Process(order, args + extra, ctx) == Process(order, args, ctx)
  {
    forall role {
      ArgForPrefix(order, args, extra, role);
    }
    forall p | 0 <= p < 8
      ensures SlotValue(order, args + extra, ctx, p) == SlotValue(order, args, ctx, p)
    {
    }
    var a := Process(order, args + extra, ctx);
    var b := Process(order, args, ctx);
    if a.Ok? && b.Ok? {
      assert a.value == b.value;
    }
  }

  /** `process` returns the slots one by one when every conversion succeeds. */
  lemma ProcessFromSlots(order: seq<Role>, args: seq<Option<string>>, ctx: Context, slots: seq<Option<int>>)
    requires |args| >= |order| && |slots| == 8
    requires forall p :: 0 <= p < 8 ==> SlotValue(order, args, ctx, p) == Ok(slots[p])
    ensures Process(order, args, ctx) == Ok(slots)
  {
    var r := Process(order, args, ctx);
    assert r.Ok?;
    assert r.value == slots;
  }

  /** A slot whose role is not a parameter is nil. */
  lemma SlotAbsent(order: seq<Role>, args: seq<Option<string>>, ctx: Context, p: nat)
    requires p < 8 && |args| >= |order| && SlotRole(p) !in order
    ensures SlotValue(order, args, ctx, p) == Ok(None)
  {
  }

  /** A slot whose role is a parameter holds that role's conversion of its argument. */
  lemma SlotPresent(order: seq<Role>, args: seq<Option<string>>, ctx: Context, p: nat, v: Option<string>)
    requires p < 8 && |args| >= |order| && SlotRole(p) in order && ArgFor(order, args, SlotRole(p)) == v
    ensures SlotValue(order, args, ctx, p) == Convert(SlotRole(p), v, ArgFor(order, args, Meridian), ctx)
  {
  }

  /** A year of more than two characters is read as written. */
  lemma SlotLongYear(order: seq<Role>, args: seq<Option<string>>, ctx: Context, y: string)
    requires |args| >= |order| && Year in order && ArgFor(order, args, Year) == Some(y) && |y| > 2
    ensures SlotValue(order, args, ctx, 0) == Ok(Some(ToI(y)))
  {
    SlotPresent(order, args, ctx, 0, Some(y));
  }

  /** A month with a digit in it is read as a number. */
  lemma SlotNumericMonth(order: seq<Role>, args: seq<Option<string>>, ctx: Context, m: string)
    requires |args| >= |order| && Month in order && ArgFor(order, args, Month) == Some(m) && ContainsDigit(m)
    ensures SlotValue(order, args, ctx, 1) == Ok(Some(ToI(m)))
  {
    SlotPresent(order, args, ctx, 1, Some(m));
  }

  /** A day, minute or second is read with `to_i`. */
  lemma SlotPlain(order: seq<Role>, args: seq<Option<string>>, ctx: Context, p: nat, v: string)
    requires p == 2 || p == 4 || p == 5
    requires |args| >= |order| && SlotRole(p) in order && ArgFor(order, args, SlotRole(p)) == Some(v)
    ensures SlotValue(order, args, ctx, p) == Ok(Some(ToI(v)))
  {
    SlotPresent(order, args, ctx, p, Some(v));
  }
}
