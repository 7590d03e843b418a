/**
 * The string rewriting of `Format#compile!` (lib/timeliness/format.rb) as
 * functions: escaping, token substitution and placeholder expansion, and
 * what the three passes preserve.
 */
module Rewriting {
  import opened Text
  import opened Outcomes
  import opened Tokens
  import opened Matching

  // ------------------------------------------------------------ rewriting

  /**
   * The format string while `compile!` rewrites it: characters the token
   * scan can still see, characters escaped with a backslash (`\.` and
   * `\\`), and the numbered placeholders `%<n>` that stand for the n-th
   * token found.
   */
  datatype Piece = Ch(c: char) | Esc(backslash: bool) | Hole(index: nat)

  /** The character an escaped piece stands for: `\\` or `.`. */
  function EscapedChar(backslash: bool): char {
    if backslash then '\\' else '.'
  }

  function EscapePiece(c: char): Piece {
    if c == '.' then Esc(false) else if c == '\\' then Esc(true) else Ch(c)
  }

  /** The format string after `gsub!(/([\.\\])/, '\\\\\1')`. */
  function Escaped(s: string): (r: seq<Piece>)
    ensures |r| == |s| && forall i :: 0 <= i < |s| ==> r[i] == EscapePiece(s[i])
  {
    if s == [] then [] else [EscapePiece(s[0])] + Escaped(s[1..])
  }

  predicate HolesBelow(ps: seq<Piece>, n: nat) {
    forall i :: 0 <= i < |ps| && ps[i].Hole? ==> ps[i].index < n
  }

  /** The text a piece stands for: its character, or the spelling of the token it replaced. */
  function PieceText(p: Piece, found: seq<TokenSpec>): string
  {
    match p
    case Ch(c) => [c]
    case Esc(b) => [EscapedChar(b)]
    case Hole(n) => if n < |found| then found[n].key else []
  }

  function RenderPieces(ps: seq<Piece>, found: seq<TokenSpec>): string
  {
    if ps == [] then [] else PieceText(ps[0], found) + RenderPieces(ps[1..], found)
  }

  /** The token's spelling starts here, in characters the scan can see. */
  predicate KeyAt(ps: seq<Piece>, key: string) {
    |key| <= |ps| && forall j :: 0 <= j < |key| ==> ps[j] == Ch(key[j])
  }

  /** `found_tokens.rassoc(arg_key)` for a token with a role. */
  predicate RoleTaken(found: seq<TokenSpec>, role: Option<Role>) {
    role.Some? && exists j :: 0 <= j < |found| && found[j].role == role
  }

  /**
   * `format.gsub!(token) { … }`: scans left to right, replacing every
   * occurrence of the token in scannable characters by a placeholder for
   * the next entry of `found_tokens`. A token whose role an earlier token
   * already carries makes the block raise, which `compile!` reports as
   * CompilationFailed.
   */
  function Substitution(ps: seq<Piece>, tok: TokenSpec, found: seq<TokenSpec>, fs: string)
    : (r: Result<(seq<Piece>, seq<TokenSpec>)>)
    requires HolesBelow(ps, |found|)
    ensures r.Err? ==> r.error == CompilationFailed(fs)
    ensures r.Ok? ==> found <= r.value.1 && HolesBelow(r.value.0, |r.value.1|)
    decreases |ps|
  {
    if ps == [] then Ok(([], found))
    else if KeyAt(ps, tok.key) then
      if RoleTaken(found, tok.role) then Err(CompilationFailed(fs))
      else
        var rest := Substitution(ps[|tok.key|..], tok, found + [tok], fs);
        if rest.Err? then rest else Ok(([Hole(|found|)] + rest.value.0, rest.value.1))
    else
      var rest := Substitution(ps[1..], tok, found, fs);
      if rest.Err? then rest else Ok(([ps[0]] + rest.value.0, rest.value.1))
  }

  /** The token substitution for every spelling, in the order given (longest first in `compile!`). */
  function SubstituteAll(ps: seq<Piece>, toks: seq<TokenSpec>, found: seq<TokenSpec>, fs: string)
    : (r: Result<(seq<Piece>, seq<TokenSpec>)>)
    requires HolesBelow(ps, |found|)
    ensures r.Err? ==> r.error == CompilationFailed(fs)
    ensures r.Ok? ==> found <= r.value.1 && HolesBelow(r.value.0, |r.value.1|)
    decreases |toks|
  {
    if toks == [] then Ok((ps, found))
    else
      var step := Substitution(ps, toks[0], found, fs);
      if step.Err? then step else SubstituteAll(step.value.0, toks[1..], step.value.1, fs)
  }

  /**
   * `format.gsub!(/%<(\d+)>/) { … }`: each placeholder becomes its token's
   * fragment, every other piece a literal character; the roles met on the
   * way, in order, are `token_order`.
   */
  function Expansion(ps: seq<Piece>, found: seq<TokenSpec>): (r: (seq<Segment>, seq<Role>))
    requires HolesBelow(ps, |found|)
    ensures |r.0| == |ps|
  {
    if ps == [] then ([], [])
    else
      var rest := Expansion(ps[1..], found);
      match ps[0]
      case Hole(n) =>
        ([Tok(found[n])] + rest.0, (if found[n].role.Some? then [found[n].role.value] else []) + rest.1)
      case Ch(c) => ([Lit(c)] + rest.0, rest.1)
      case Esc(b) => ([Lit(EscapedChar(b))] + rest.0, rest.1)
  }

  /**
   * The escaped format string with every token spelling of `keys`
   * substituted in turn; `compile!` passes `sorted_token_keys`.
   */
  function Substituted(fs: string, keys: seq<TokenSpec>): (r: Result<(seq<Piece>, seq<TokenSpec>)>)
    ensures r.Err? ==> r.error == CompilationFailed(fs)
    ensures r.Ok? ==> HolesBelow(r.value.0, |r.value.1|)
  {
    var ps := Escaped(fs);
    assert HolesBelow(ps, 0);
    SubstituteAll(ps, keys, [], fs)
  }

  /** A compiled format: the format string, its segments and `token_order`. */
  datatype CompiledFormat = CompiledFormat(formatString: string, pattern: seq<Segment>, tokenOrder: seq<Role>)

  /** What `Format.new(format_string).compile!` computes, or the error it raises. */
  function Compiled(fs: string, keys: seq<TokenSpec>): Result<CompiledFormat>
  {
    var sub := Substituted(fs, keys);
    if sub.Err? then Err(sub.error)
    else
      var (pattern, order) := Expansion(sub.value.0, sub.value.1);
      Ok(CompiledFormat(fs, pattern, order))
  }

  // ------------------------------------------------------------ properties

  /** The spelling a pattern was compiled from: literals as themselves, tokens as their keys. */
  function RenderPattern(p: seq<Segment>): string
  {
    if p == [] then [] else (match p[0] case Lit(c) => [c] case Tok(spec) => spec.key) + RenderPattern(p[1..])
  }

  /** The roles of the capturing segments, left to right. */
  function RolesOf(p: seq<Segment>): seq<Role>
  {
    if p == [] then []
    else (if Captures(p[0]) then [p[0].spec.role.value] else []) + RolesOf(p[1..])
  }

  predicate NoDup<T(==)>(s: seq<T>) {
    forall i, j :: 0 <= i < j < |s| ==> s[i] != s[j]
  }

  /** No two tokens found carry the same role. */
  predicate NoDupRoles(found: seq<TokenSpec>) {
    forall i, j :: 0 <= i < j < |found| && found[i].role.Some? ==> found[i].role != found[j].role
  }

  /** Each placeholder index occurs once. */
  predicate HolesDistinct(ps: seq<Piece>) {
    forall i, j :: 0 <= i < j < |ps| && ps[i].Hole? && ps[j].Hole? ==> ps[i].index != ps[j].index
  }

  lemma {:induction false} RenderEscaped(s: string)
    ensures HolesBelow(Escaped(s), 0) && RenderPieces(Escaped(s), []) == s
  {
    if s != [] {
      RenderEscaped(s[1..]);
      assert Escaped(s)[1..] == Escaped(s[1..]);
    }
  }

  lemma {:induction false} RenderExtend(ps: seq<Piece>, found: seq<TokenSpec>, more: seq<TokenSpec>)
    requires HolesBelow(ps, |found|) && found <= more
    ensures HolesBelow(ps, |more|) && RenderPieces(ps, found) == RenderPieces(ps, more)
  {
    if ps != [] {
      RenderExtend(ps[1..], found, more);
      assert PieceText(ps[0], found) == PieceText(ps[0], more) by {
        if ps[0].Hole? {
          assert found[ps[0].index] == more[ps[0].index];
        }
      }
    }
  }

  lemma RenderKeyPrefix(ps: seq<Piece>, key: string, found: seq<TokenSpec>)
    requires KeyAt(ps, key)
    ensures RenderPieces(ps, found) == key + RenderPieces(ps[|key|..], found)
  {
    RenderSplit(ps, |key|, found);
    RenderChars(ps[..|key|], key, found);
  }

  lemma {:induction false} RenderSplit(ps: seq<Piece>, n: nat, found: seq<TokenSpec>)
    requires n <= |ps|
    ensures RenderPieces(ps, found) == RenderPieces(ps[..n], found) + RenderPieces(ps[n..], found)
  {
    if n > 0 {
      RenderSplit(ps[1..], n - 1, found);
      assert ps[1..][..n - 1] == ps[..n][1..];
      assert ps[1..][n - 1..] == ps[n..];
    }
  }

  lemma {:induction false} RenderChars(ps: seq<Piece>, key: string, found: seq<TokenSpec>)
    requires |ps| == |key| && forall j :: 0 <= j < |key| ==> ps[j] == Ch(key[j])
    ensures RenderPieces(ps, found) == key
  {
    if key != [] {
      RenderChars(ps[1..], key[1..], found);
      assert key == [key[0]] + key[1..];
    }
  }

  /** One substitution keeps the spelling of the format string. */
  lemma {:induction false} SubstitutionRender(ps: seq<Piece>, tok: TokenSpec, found: seq<TokenSpec>, fs: string)
    requires HolesBelow(ps, |found|)
    requires Substitution(ps, tok, found, fs).Ok?
    ensures var (out, more) := Substitution(ps, tok, found, fs).value;
      RenderPieces(out, more) == RenderPieces(ps, found)
    decreases |ps|
  {
    var (out, more) := Substitution(ps, tok, found, fs).value;
    if ps == [] {
    } else if KeyAt(ps, tok.key) {
      var tail := ps[|tok.key|..];
      var found' := found + [tok];
      SubstitutionRender(tail, tok, found', fs);
      var rest := Substitution(tail, tok, found', fs).value.0;
      assert out == [Hole(|found|)] + rest;
      assert RenderPieces(out, more) == tok.key + RenderPieces(rest, more);
      RenderKeyPrefix(ps, tok.key, found);
      RenderExtend(tail, found, found');
    } else {
      SubstitutionRender(ps[1..], tok, found, fs);
      var rest := Substitution(ps[1..], tok, found, fs).value.0;
      assert out == [ps[0]] + rest;
      assert RenderPieces(out, more) == PieceText(ps[0], more) + RenderPieces(rest, more);
    }
  }

  /** One substitution keeps roles unique: a role already taken makes it fail. */
  lemma {:induction false} SubstitutionRoles(ps: seq<Piece>, tok: TokenSpec, found: seq<TokenSpec>, fs: string)
    requires HolesBelow(ps, |found|) && NoDupRoles(found)
    requires Substitution(ps, tok, found, fs).Ok?
    ensures NoDupRoles(Substitution(ps, tok, found, fs).value.1)
    decreases |ps|
  {
    if ps == [] {
    } else if KeyAt(ps, tok.key) {
      var found' := found + [tok];
      assert NoDupRoles(found') by {
        forall i, j | 0 <= i < j < |found'| && found'[i].role.Some?
          ensures found'[i].role != found'[j].role
        {
          if j == |found| {
            assert !RoleTaken(found, tok.role);
          }
        }
      }
      SubstitutionRoles(ps[|tok.key|..], tok, found', fs);
    } else {
      SubstitutionRoles(ps[1..], tok, found, fs);
    }
  }

  /** Where the placeholders of a substitution's result come from. */
  predicate HolesFrom(out: seq<Piece>, ps: seq<Piece>, lo: nat, hi: nat) {
    forall k :: 0 <= k < |out| && out[k].Hole? ==> out[k] in ps || lo <= out[k].index < hi
  }

  /** Every placeholder a substitution leaves was there before or is new, and they stay distinct. */
  lemma {:induction false} SubstitutionHoles(ps: seq<Piece>, tok: TokenSpec, found: seq<TokenSpec>, fs: string)
    requires HolesBelow(ps, |found|) && HolesDistinct(ps)
    requires Substitution(ps, tok, found, fs).Ok?
    ensures var (out, more) := Substitution(ps, tok, found, fs).value;
      HolesDistinct(out) && HolesFrom(out, ps, |found|, |more|)
    decreases |ps|
  {
    var (out, more) := Substitution(ps, tok, found, fs).value;
    if ps == [] {
    } else if KeyAt(ps, tok.key) {
      var tail := ps[|tok.key|..];
      var found' := found + [tok];
      SubstitutionHoles(tail, tok, found', fs);
      var rest := Substitution(tail, tok, found', fs).value.0;
      assert out == [Hole(|found|)] + rest;
      HolesFromSuffix(rest, ps, |tok.key|, |found'|, |more|);
      HolesFromCons(Hole(|found|), rest, ps, |found|, |more|);
    } else {
      var tail := ps[1..];
      SubstitutionHoles(tail, tok, found, fs);
      var rest := Substitution(tail, tok, found, fs).value.0;
      assert out == [ps[0]] + rest;
      HolesFromSuffix(rest, ps, 1, |found|, |more|);
      HolesFromCons(ps[0], rest, ps, |found|, |more|);
    }
  }

  lemma HolesFromSuffix(rest: seq<Piece>, ps: seq<Piece>, d: nat, lo: nat, hi: nat)
    requires d <= |ps| && HolesFrom(rest, ps[d..], lo, hi)
    ensures HolesFrom(rest, ps, lo, hi)
    ensures forall k :: 0 <= k < |rest| && rest[k].Hole? && rest[k] in ps[d..] ==> exists q :: d <= q < |ps| && ps[q] == rest[k]
  {
    forall k | 0 <= k < |rest| && rest[k].Hole? && rest[k] in ps[d..]
      ensures exists q :: d <= q < |ps| && ps[q] == rest[k]
    {
      var q :| 0 <= q < |ps[d..]| && ps[d..][q] == rest[k];
      assert ps[q + d] == rest[k];
    }
  }

  /**
   * Putting a piece in front of a substitution's remaining result: the
   * piece is a new placeholder below every later new one, or the first
   * piece of `ps`, which is distinct from the placeholders after it.
   */
  lemma HolesFromCons(x: Piece, rest: seq<Piece>, ps: seq<Piece>, lo: nat, hi: nat)
    requires ps != [] && HolesBelow(ps, lo) && HolesDistinct(ps) && HolesDistinct(rest)
    requires x == ps[0] || (x == Hole(lo) && lo < hi)
    requires x == ps[0] ==> forall k :: 0 <= k < |rest| && rest[k].Hole? ==>
      (exists q :: 1 <= q < |ps| && ps[q] == rest[k]) || lo <= rest[k].index < hi
    requires x != ps[0] ==> forall k :: 0 <= k < |rest| && rest[k].Hole? ==>
      (exists q :: 0 <= q < |ps| && ps[q] == rest[k]) || lo + 1 <= rest[k].index < hi
    ensures HolesDistinct([x] + rest) && HolesFrom([x] + rest, ps, lo, hi)
  {
    var out := [x] + rest;
    forall k | 0 <= k < |out| && out[k].Hole?
      ensures out[k] in ps || lo <= out[k].index < hi
    {
      if k > 0 {
        assert out[k] == rest[k - 1];
      }
    }
    forall i, j | 0 <= i < j < |out| && out[i].Hole? && out[j].Hole?
      ensures out[i].index != out[j].index
    {
      assert out[j] == rest[j - 1];
      if i > 0 {
        assert out[i] == rest[i - 1];
      }
    }
  }

  /** The whole substitution pass keeps the spelling, distinct placeholders and unique roles. */
  lemma {:induction false} SubstituteAllProperties(ps: seq<Piece>, toks: seq<TokenSpec>, found: seq<TokenSpec>, fs: string)
    requires HolesBelow(ps, |found|) && HolesDistinct(ps) && NoDupRoles(found)
    requires SubstituteAll(ps, toks, found, fs).Ok?
    ensures var (out, more) := SubstituteAll(ps, toks, found, fs).value;
      RenderPieces(out, more) == RenderPieces(ps, found) && HolesDistinct(out) && NoDupRoles(more)
    decreases |toks|
  {
    if toks != [] {
      var (mid, found') := Substitution(ps, toks[0], found, fs).value;
      SubstitutionRender(ps, toks[0], found, fs);
      SubstitutionHoles(ps, toks[0], found, fs);
      SubstitutionRoles(ps, toks[0], found, fs);
      SubstituteAllProperties(mid, toks[1..], found', fs);
      var (out, more) := SubstituteAll(ps, toks, found, fs).value;
      RenderExtend(mid, found', more);
    }
  }

  /** Expanding placeholders into fragments keeps the spelling. */
  lemma {:induction false} ExpansionRender(ps: seq<Piece>, found: seq<TokenSpec>)
    requires HolesBelow(ps, |found|)
    ensures RenderPattern(Expansion(ps, found).0) == RenderPieces(ps, found)
  {
    if ps != [] {
      ExpansionRender(ps[1..], found);
      var segs := Expansion(ps, found).0;
      assert segs[1..] == Expansion(ps[1..], found).0;
      assert RenderPattern(segs) == PieceText(ps[0], found) + RenderPattern(segs[1..]);
    }
  }

  /** `token_order` lists the roles of the capturing fragments of the pattern, left to right. */
  lemma {:induction false} ExpansionOrder(ps: seq<Piece>, found: seq<TokenSpec>)
    requires HolesBelow(ps, |found|)
    ensures Expansion(ps, found).1 == RolesOf(Expansion(ps, found).0)
  {
    if ps != [] {
      ExpansionOrder(ps[1..], found);
      var (segs, order) := Expansion(ps, found);
      assert segs[1..] == Expansion(ps[1..], found).0;
    }
  }

  /** The role a piece contributes to `token_order`: that of the token a placeholder stands for. */
  function HeadRoles(p: Piece, found: seq<TokenSpec>): seq<Role>
    requires p.Hole? ==> p.index < |found|
  {
    if p.Hole? && found[p.index].role.Some? then [found[p.index].role.value] else []
  }

  lemma ExpansionRolesCons(ps: seq<Piece>, found: seq<TokenSpec>)
    requires ps != [] && HolesBelow(ps, |found|)
    ensures Expansion(ps, found).1 == HeadRoles(ps[0], found) + Expansion(ps[1..], found).1
  {
  }

  /** Some placeholder of `ps` stands for a token with the role `r`. */
  ghost predicate RoleOfSomeHole(ps: seq<Piece>, found: seq<TokenSpec>, r: Role)
    requires HolesBelow(ps, |found|)
  {
    exists k :: 0 <= k < |ps| && ps[k].Hole? && found[ps[k].index].role == Some(r)
  }

  /** Every role in `token_order` is the role of a token one of the placeholders stands for. */
  lemma {:induction false} ExpansionRolesFrom(ps: seq<Piece>, found: seq<TokenSpec>)
    requires HolesBelow(ps, |found|)
    ensures forall r :: r in Expansion(ps, found).1 ==> RoleOfSomeHole(ps, found, r)
  {
    if ps != [] {
      ExpansionRolesFrom(ps[1..], found);
      ExpansionRolesCons(ps, found);
      forall r | r in Expansion(ps, found).1
        ensures RoleOfSomeHole(ps, found, r)
      {
        if r in HeadRoles(ps[0], found) {
          assert ps[0].Hole? && found[ps[0].index].role == Some(r);
        } else {
          assert RoleOfSomeHole(ps[1..], found, r);
          var k :| 0 <= k < |ps[1..]| && ps[1..][k].Hole? && found[ps[1..][k].index].role == Some(r);
          assert ps[k + 1] == ps[1..][k];
        }
      }
    }
  }

  /** Distinct placeholders for tokens of distinct roles give a `token_order` without repeats. */
  lemma {:induction false} ExpansionNoDup(ps: seq<Piece>, found: seq<TokenSpec>)
    requires HolesBelow(ps, |found|) && HolesDistinct(ps) && NoDupRoles(found)
    ensures NoDup(Expansion(ps, found).1)
  {
    if ps != [] {
      ExpansionNoDup(ps[1..], found);
      ExpansionRolesFrom(ps[1..], found);
      ExpansionRolesCons(ps, found);
      var rest := Expansion(ps[1..], found).1;
      var head := HeadRoles(ps[0], found);
      if head != [] {
        var n := ps[0].index;
        assert head[0] !in rest;
        NoDupCons(head[0], rest);
      }
    }
  }

  lemma NoDupCons<T>(x: T, s: seq<T>)
    requires NoDup(s) && x !in s
    ensures NoDup([x] + s)
  {
    var t := [x] + s;
    forall i, j | 0 <= i < j < |t|
      ensures t[i] != t[j]
    {
      assert t[j] == s[j - 1];
      if i > 0 {
        assert t[i] == s[i - 1];
      }
    }
  }

  // ------------------------------------------------------------ every spelling substituted

  /** No occurrence of `key` is left in the characters the scan can see. */
  predicate NoKeyIn(ps: seq<Piece>, key: string) {
    forall j :: 0 <= j <= |ps| ==> !KeyAt(ps[j..], key)
  }

  lemma NoKeyInSuffix(ps: seq<Piece>, key: string, d: nat)
    requires d <= |ps| && NoKeyIn(ps, key)
    ensures NoKeyIn(ps[d..], key)
  {
    forall j | 0 <= j <= |ps[d..]|
      ensures !KeyAt(ps[d..][j..], key)
    {
      assert ps[d..][j..] == ps[d + j..];
    }
  }

  /** A run of scannable characters at the start of a substitution's result was there before. */
  lemma {:induction false} ChPrefix(qs: seq<Piece>, tok: TokenSpec, found: seq<TokenSpec>, fs: string, m: nat)
    requires HolesBelow(qs, |found|) && Substitution(qs, tok, found, fs).Ok?
    requires var out := Substitution(qs, tok, found, fs).value.0;
      m <= |out| && forall i :: 0 <= i < m ==> out[i].Ch?
    ensures var out := Substitution(qs, tok, found, fs).value.0;
      m <= |qs| && qs[..m] == out[..m]
    decreases |qs|
  {
    var out := Substitution(qs, tok, found, fs).value.0;
    assert m > 0 ==> out[0].Ch?;
    if m == 0 {
    } else if KeyAt(qs, tok.key) {
      assert false;
    } else {
      var rest := Substitution(qs[1..], tok, found, fs).value.0;
      assert out == [qs[0]] + rest;
      assert forall i :: 0 <= i < m - 1 ==> rest[i] == out[i + 1];
      ChPrefix(qs[1..], tok, found, fs, m - 1);
      assert qs[..m] == [qs[0]] + qs[1..][..m - 1];
      assert out[..m] == [out[0]] + rest[..m - 1];
    }
  }

  lemma KeyAtCons(ps: seq<Piece>, rest: seq<Piece>, key: string)
    requires ps != [] && key != [] && KeyAt([ps[0]] + rest, key)
    requires |key| - 1 <= |ps| - 1 && ps[1..][..|key| - 1] == rest[..|key| - 1]
    ensures KeyAt(ps, key)
  {
    forall j | 0 <= j < |key|
      ensures ps[j] == Ch(key[j])
    {
      if j > 0 {
        assert ps[j] == ps[1..][..|key| - 1][j - 1];
      }
    }
  }

  /**
   * A substitution leaves no occurrence of a spelling behind that was not
   * there before, and none of its own: `gsub!` replaces every occurrence
   * it meets left to right, and the placeholders it writes cannot be
   * rescanned.
   */
  lemma {:induction false} SubstitutionNoKey(ps: seq<Piece>, tok: TokenSpec, found: seq<TokenSpec>, fs: string, key: string)
    requires HolesBelow(ps, |found|) && Substitution(ps, tok, found, fs).Ok?
    requires key != [] && (key == tok.key || NoKeyIn(ps, key))
    ensures NoKeyIn(Substitution(ps, tok, found, fs).value.0, key)
    decreases |ps|
  {
    if ps == [] {
    } else if KeyAt(ps, tok.key) {
      var tail := ps[|tok.key|..];
      if key != tok.key {
        NoKeyInSuffix(ps, key, |tok.key|);
      }
      SubstitutionNoKey(tail, tok, found + [tok], fs, key);
      NoKeyAfterHole(Hole(|found|), Substitution(tail, tok, found + [tok], fs).value.0, key);
    } else {
      assert !KeyAt(ps, key) by {
        if key != tok.key {
          assert ps[0..] == ps;
        }
      }
      if key != tok.key {
        NoKeyInSuffix(ps, key, 1);
      }
      SubstitutionNoKey(ps[1..], tok, found, fs, key);
      NoKeyAfterKept(ps, tok, found, fs, key);
    }
  }

  /** A placeholder in front hides no spelling. */
  lemma NoKeyAfterHole(h: Piece, rest: seq<Piece>, key: string)
    requires h.Hole? && key != [] && NoKeyIn(rest, key)
    ensures NoKeyIn([h] + rest, key)
  {
    var out := [h] + rest;
    forall j | 0 <= j <= |out|
      ensures !KeyAt(out[j..], key)
    {
      if j > 0 {
        assert out[j..] == rest[j - 1..];
      } else {
        assert out[0..] == out && out[0] == h;
      }
    }
  }

  /**
   * A piece the scan passes over, in front of the rest of the result: a
   * spelling starting there would have started there before.
   */
  lemma NoKeyAfterKept(ps: seq<Piece>, tok: TokenSpec, found: seq<TokenSpec>, fs: string, key: string)
    requires ps != [] && HolesBelow(ps, |found|) && Substitution(ps, tok, found, fs).Ok?
    requires !KeyAt(ps, tok.key) && !KeyAt(ps, key) && key != []
    requires NoKeyIn(Substitution(ps[1..], tok, found, fs).value.0, key)
    ensures NoKeyIn(Substitution(ps, tok, found, fs).value.0, key)
  {
    var out := Substitution(ps, tok, found, fs).value.0;
    var rest := Substitution(ps[1..], tok, found, fs).value.0;
    assert out == [ps[0]] + rest;
    forall j | 0 <= j <= |out|
      ensures !KeyAt(out[j..], key)
    {
      if j > 0 {
        assert out[j..] == rest[j - 1..];
      } else {
        assert out[0..] == out;
        NoKeyAtFront(ps, tok, found, fs, key);
      }
    }
  }

  lemma NoKeyAtFront(ps: seq<Piece>, tok: TokenSpec, found: seq<TokenSpec>, fs: string, key: string)
    requires ps != [] && HolesBelow(ps, |found|) && Substitution(ps, tok, found, fs).Ok?
    requires !KeyAt(ps, tok.key) && !KeyAt(ps, key) && key != []
    ensures !KeyAt(Substitution(ps, tok, found, fs).value.0, key)
  {
    var out := Substitution(ps, tok, found, fs).value.0;
    var rest := Substitution(ps[1..], tok, found, fs).value.0;
    assert out == [ps[0]] + rest;
    if KeyAt(out, key) {
      KeyAtTailCh(out, rest, key);
      ChPrefix(ps[1..], tok, found, fs, |key| - 1);
      KeyAtCons(ps, rest, key);
    }
  }

  lemma KeyAtTailCh(out: seq<Piece>, rest: seq<Piece>, key: string)
    requires key != [] && out != [] && out[1..] == rest && KeyAt(out, key)
    ensures |key| - 1 <= |rest| && forall i :: 0 <= i < |key| - 1 ==> rest[i].Ch?
  {
    forall i | 0 <= i < |key| - 1
      ensures rest[i].Ch?
    {
      assert rest[i] == out[i + 1] == Ch(key[i + 1]);
    }
  }

  /** After the whole pass no spelling of the given tokens is left to scan. */
  lemma {:induction false} SubstituteAllNoKey(ps: seq<Piece>, toks: seq<TokenSpec>, found: seq<TokenSpec>, fs: string, key: string)
    requires HolesBelow(ps, |found|) && SubstituteAll(ps, toks, found, fs).Ok?
    requires key != [] && ((exists i :: 0 <= i < |toks| && toks[i].key == key) || NoKeyIn(ps, key))
    ensures NoKeyIn(SubstituteAll(ps, toks, found, fs).value.0, key)
    decreases |toks|
  {
    if toks != [] {
      var (mid, found') := Substitution(ps, toks[0], found, fs).value;
      if toks[0].key == key || NoKeyIn(ps, key) {
        SubstitutionNoKey(ps, toks[0], found, fs, key);
      } else {
        var i :| 0 <= i < |toks| && toks[i].key == key;
        assert toks[1..][i - 1] == toks[i];
      }
      SubstituteAllNoKey(mid, toks[1..], found', fs, key);
    }
  }

  // ------------------------------------------------------------ compiled formats

  /**
   * The substitution without the duplicate check: how the scan would cut
   * the format string into tokens if nothing raised.
   */
  function Unchecked(ps: seq<Piece>, tok: TokenSpec, found: seq<TokenSpec>): (r: (seq<Piece>, seq<TokenSpec>))
    requires HolesBelow(ps, |found|)
    ensures found <= r.1 && HolesBelow(r.0, |r.1|)
    decreases |ps|
  {
    if ps == [] then ([], found)
    else if KeyAt(ps, tok.key) then
      var rest := Unchecked(ps[|tok.key|..], tok, found + [tok]);
      ([Hole(|found|)] + rest.0, rest.1)
    else
      var rest := Unchecked(ps[1..], tok, found);
      ([ps[0]] + rest.0, rest.1)
  }

  function UncheckedAll(ps: seq<Piece>, toks: seq<TokenSpec>, found: seq<TokenSpec>): (r: (seq<Piece>, seq<TokenSpec>))
    requires HolesBelow(ps, |found|)
    ensures found <= r.1 && HolesBelow(r.0, |r.1|)
    decreases |toks|
  {
    if toks == [] then (ps, found)
    else
      var step := Unchecked(ps, toks[0], found);
      UncheckedAll(step.0, toks[1..], step.1)
  }

  /** The tokens of a format string in the order the scan finds them, roles repeated or not. */
  function Tokenized(fs: string, keys: seq<TokenSpec>): (r: (seq<Piece>, seq<TokenSpec>))
    ensures HolesBelow(r.0, |r.1|)
  {
    var ps := Escaped(fs);
    assert HolesBelow(ps, 0);
    UncheckedAll(ps, keys, [])
  }

  lemma DupPersists(a: seq<TokenSpec>, b: seq<TokenSpec>)
    requires !NoDupRoles(a) && a <= b
    ensures !NoDupRoles(b)
  {
    var i, j :| 0 <= i < j < |a| && a[i].role.Some? && a[i].role == a[j].role;
    assert b[i] == a[i] && b[j] == a[j];
  }

  /** One checked substitution fails exactly when the unchecked one repeats a role. */
  lemma {:induction false} SubstitutionChecked(ps: seq<Piece>, tok: TokenSpec, found: seq<TokenSpec>, fs: string)
    requires HolesBelow(ps, |found|) && NoDupRoles(found)
    ensures var u := Unchecked(ps, tok, found);
      Substitution(ps, tok, found, fs) == if NoDupRoles(u.1) then Ok(u) else Err(CompilationFailed(fs))
    decreases |ps|
  {
    if ps == [] {
    } else if KeyAt(ps, tok.key) {
      var found' := found + [tok];
      var u := Unchecked(ps, tok, found);
      if RoleTaken(found, tok.role) {
        var j :| 0 <= j < |found| && found[j].role == tok.role;
        assert found'[j].role == found'[|found|].role;
        DupPersists(found', u.1);
      } else {
        assert NoDupRoles(found') by {
          forall i, j | 0 <= i < j < |found'| && found'[i].role.Some?
            ensures found'[i].role != found'[j].role
          {
            if j == |found| {
              assert found'[i] == found[i];
            }
          }
        }
        SubstitutionChecked(ps[|tok.key|..], tok, found', fs);
      }
    } else {
      SubstitutionChecked(ps[1..], tok, found, fs);
    }
  }

  lemma {:induction false} SubstituteAllChecked(ps: seq<Piece>, toks: seq<TokenSpec>, found: seq<TokenSpec>, fs: string)
    requires HolesBelow(ps, |found|) && NoDupRoles(found)
    ensures var u := UncheckedAll(ps, toks, found);
      SubstituteAll(ps, toks, found, fs) == if NoDupRoles(u.1) then Ok(u) else Err(CompilationFailed(fs))
    decreases |toks|
  {
    if toks != [] {
      SubstitutionChecked(ps, toks[0], found, fs);
      var step := Unchecked(ps, toks[0], found);
      if NoDupRoles(step.1) {
        SubstituteAllChecked(step.0, toks[1..], step.1, fs);
      } else {
        DupPersists(step.1, UncheckedAll(ps, toks, found).1);
      }
    }
  }

  /**
   * `compile!` raises CompilationFailed exactly when two of the tokens the
   * scan finds carry the same role. Tokens without a role (`ddd`, `tz`,
   * `_`) may repeat.
   */
  lemma CompiledFailsIffRoleRepeats(fs: string, keys: seq<TokenSpec>)
    ensures Compiled(fs, keys).Err? <==> !NoDupRoles(Tokenized(fs, keys).1)
    ensures Compiled(fs, keys).Err? ==> Compiled(fs, keys).error == CompilationFailed(fs)
  {
    assert HolesBelow(Escaped(fs), 0);
    SubstituteAllChecked(Escaped(fs), keys, [], fs);
  }

  /** Otherwise it compiles the tokens the scan finds. */
  lemma CompiledIsTokenized(fs: string, keys: seq<TokenSpec>)
    requires Compiled(fs, keys).Ok?
    ensures var (ps, found) := Tokenized(fs, keys);
      Compiled(fs, keys).value == CompiledFormat(fs, Expansion(ps, found).0, Expansion(ps, found).1)
  {
    assert HolesBelow(Escaped(fs), 0);
    SubstituteAllChecked(Escaped(fs), keys, [], fs);
  }

  /** Pattern `p` has literal characters spelling `key` at its start. */
  predicate LitKeyAt(p: seq<Segment>, key: string) {
    |key| <= |p| && forall j :: 0 <= j < |key| ==> p[j] == Lit(key[j])
  }

  lemma LitKeyAtPieces(ps: seq<Piece>, found: seq<TokenSpec>, j: nat, key: Key)
    requires HolesBelow(ps, |found|) && j <= |ps|
    requires LitKeyAt(Expansion(ps, found).0[j..], key)
    ensures KeyAt(ps[j..], key)
  {
    var segs := Expansion(ps, found).0;
    forall i | 0 <= i < |key|
      ensures ps[j..][i] == Ch(key[i])
    {
      ExpansionAt(ps, found, j + i);
      assert segs[j..][i] == segs[j + i];
      assert IsTokenChar(key[i]);
    }
  }

  /** Each piece expands to the segment in the same position. */
  lemma {:induction false} ExpansionAt(ps: seq<Piece>, found: seq<TokenSpec>, k: nat)
    requires HolesBelow(ps, |found|) && k < |ps|
    ensures var seg := Expansion(ps, found).0[k];
      match ps[k]
      case Hole(n) => seg == Tok(found[n])
      case Ch(c) => seg == Lit(c)
      case Esc(b) => seg == Lit(EscapedChar(b))
  {
    if k > 0 {
      ExpansionAt(ps[1..], found, k - 1);
      assert Expansion(ps, found).0[k] == Expansion(ps[1..], found).0[k - 1];
    }
  }

  /**
   * A compiled pattern spells its format string back: escaped characters
   * are literals, each token stands for its spelling.
   */
  lemma CompiledRoundTrip(fs: string, keys: seq<TokenSpec>)
    requires Compiled(fs, keys).Ok?
    ensures Compiled(fs, keys).value.formatString == fs
    ensures RenderPattern(Compiled(fs, keys).value.pattern) == fs
  {
    var ps := Escaped(fs);
    assert HolesBelow(ps, 0) && HolesDistinct(ps);
    RenderEscaped(fs);
    var (out, found) := Substituted(fs, keys).value;
    SubstituteAllProperties(ps, keys, [], fs);
    ExpansionRender(out, found);
  }

  /**
   * `token_order` lists the roles of the capturing fragments left to
   * right, without repeats, so `token_count` is at most nine.
   */
  lemma CompiledOrder(fs: string, keys: seq<TokenSpec>)
    requires Compiled(fs, keys).Ok?
    ensures var c := Compiled(fs, keys).value;
      c.tokenOrder == RolesOf(c.pattern) && NoDup(c.tokenOrder) && |c.tokenOrder| <= 9
  {
    var ps := Escaped(fs);
    assert HolesBelow(ps, 0) && HolesDistinct(ps);
    var (out, found) := Substituted(fs, keys).value;
    SubstituteAllProperties(ps, keys, [], fs);
    ExpansionOrder(out, found);
    ExpansionNoDup(out, found);
    RolesBound(Expansion(out, found).1);
  }

  /**
   * No spelling of the keys is left over as literal text in a compiled
   * pattern: every occurrence of a token the scan could see became its
   * fragment. With the keys longest first, a `yyyy` is gone before `yy`
   * is scanned for, so it is never split.
   */
  lemma CompiledNoSpellingLeft(fs: string, keys: seq<TokenSpec>, t: TokenSpec, j: nat)
    requires Compiled(fs, keys).Ok? && t in keys && j <= |Compiled(fs, keys).value.pattern|
    ensures !LitKeyAt(Compiled(fs, keys).value.pattern[j..], t.key)
  {
    var ps := Escaped(fs);
    assert HolesBelow(ps, 0);
    var (out, found) := Substituted(fs, keys).value;
    SubstituteAllNoKey(ps, keys, [], fs, t.key);
    if LitKeyAt(Expansion(out, found).0[j..], t.key) {
      LitKeyAtPieces(out, found, j, t.key);
    }
  }

  /** A list of distinct roles has at most nine entries. */
  lemma RolesBound(s: seq<Role>)
    requires NoDup(s)
    ensures |s| <= 9
  {
    var all := {Year, Month, Day, Hour, Min, Sec, Usec, Meridian, Offset};
    assert |all| == 9;
    DistinctCard(s);
    assert (set x | x in s) <= all by {
      forall x | x in s
        ensures x in all
      {
        match x
        case Year =>
        case Month =>
        case Day =>
        case Hour =>
        case Min =>
        case Sec =>
        case Usec =>
        case Meridian =>
        case Offset =>
      }
    }
    var elems := set x | x in s;
    SubsetCard(elems, all);
  }

  lemma SubsetCard<T>(a: set<T>, b: set<T>)
    requires a <= b
    ensures |a| <= |b|
  {
    assert b == a + (b - a);
  }

  lemma {:induction false} DistinctCard<T>(s: seq<T>)
    requires NoDup(s)
    ensures |set x | x in s| == |s|
  {
    if s != [] {
      var t := s[1..];
      assert NoDup(t) by {
        forall i, j | 0 <= i < j < |t|
          ensures t[i] != t[j]
        {
          assert t[i] == s[i + 1] && t[j] == s[j + 1];
        }
      }
      DistinctCard(t);
      assert (set x | x in s) == (set x | x in t) + {s[0]};
      assert s[0] !in t;
    }
  }
}
