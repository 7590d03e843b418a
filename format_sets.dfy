/**
 * `Timeliness::FormatSet` (lib/timeliness/format_set.rb): a list of format
 * strings compiled into one alternation `\A(?:(?>A)|(?>B)|…)\z`, a table
 * from each branch's first capture number to its format, and `match`,
 * which runs the alternation and hands the winning branch's captures to
 * that format's `process`.
 */
module FormatSets {
  import opened Text
  import opened Outcomes
  import opened Tokens
  import opened Matching
  import opened Rewriting
  import opened Formats

  // ------------------------------------------------------------ compiling the list

  /**
   * `Format.new(f).compile!` for each format string in turn: the formats
   * compiled before the first failure, and that failure's error, if any.
   */
  function CompileAll(formats: seq<string>, keys: seq<TokenSpec>): (seq<CompiledFormat>, Option<Error>)
  {
    if formats == [] then ([], None)
    else
      var c := Compiled(formats[0], keys);
      if c.Err? then ([], Some(c.error))
      else
        var rest := CompileAll(formats[1..], keys);
        ([c.value] + rest.0, rest.1)
  }

  /**
   * The formats compiled are those before the first that fails, each as
   * compiling its string gives it; there is an error exactly when some
   * format fails, and it is the first failing format's.
   */
  lemma {:induction false} CompileAllPrefix(formats: seq<string>, keys: seq<TokenSpec>)
    ensures var (done, err) := CompileAll(formats, keys);
      |done| <= |formats| &&
      (forall i :: 0 <= i < |done| ==> Compiled(formats[i], keys) == Ok(done[i])) &&
      (err.None? <==> |done| == |formats|) &&
      (err.Some? ==> Compiled(formats[|done|], keys) == Err(err.value))
  {
    if formats != [] && Compiled(formats[0], keys).Ok? {
      CompileAllPrefix(formats[1..], keys);
      var rest := CompileAll(formats[1..], keys).0;
      var done := CompileAll(formats, keys).0;
      assert forall i :: 1 <= i < |done| ==> done[i] == rest[i - 1] && formats[i] == formats[1..][i - 1];
    }
  }

  /** A list fails to compile exactly when one of its formats does, with that format's error. */
  lemma CompileAllFails(formats: seq<string>, keys: seq<TokenSpec>)
    ensures CompileAll(formats, keys).1.Some? <==> exists i :: 0 <= i < |formats| && Compiled(formats[i], keys).Err?
    ensures var (done, err) := CompileAll(formats, keys);
      err.Some? ==> |done| < |formats| && err.value == CompilationFailed(formats[|done|])
  {
    CompileAllPrefix(formats, keys);
    var (done, err) := CompileAll(formats, keys);
    if err.Some? {
      CompiledFailsIffRoleRepeats(formats[|done|], keys);
    }
  }

  /** `token_count`: the number of parameters of the format's `process`. */
  function Count(c: CompiledFormat): nat {
    |c.tokenOrder|
  }

  /** The number of capture groups of the format's pattern. */
  function Groups(c: CompiledFormat): nat {
    |CapturingSegs(c.pattern)|
  }

  /** The value of the `inject` accumulator after the formats `cs`: the sum of their token counts. */
  function Total(cs: seq<CompiledFormat>): nat {
    if cs == [] then 0 else Total(cs[..|cs| - 1]) + Count(cs[|cs| - 1])
  }

  /** The number of capture groups in the branches `cs`. */
  function GroupTotal(cs: seq<CompiledFormat>): nat {
    if cs == [] then 0 else GroupTotal(cs[..|cs| - 1]) + Groups(cs[|cs| - 1])
  }

  /** `@formats_hash[format_string] = format` for each format in turn. */
  function HashFold(h: map<string, CompiledFormat>, cs: seq<CompiledFormat>): map<string, CompiledFormat> {
    if cs == [] then h
    else HashFold(h, cs[..|cs| - 1])[cs[|cs| - 1].formatString := cs[|cs| - 1]]
  }

  /** `@match_indexes[index] = format` for each format in turn, `index` being the accumulator. */
  function IndexFold(m: map<nat, CompiledFormat>, cs: seq<CompiledFormat>): map<nat, CompiledFormat> {
    if cs == [] then m
    else IndexFold(m, cs[..|cs| - 1])[Total(cs[..|cs| - 1]) := cs[|cs| - 1]]
  }

  /** The accumulator passes each format's offset, the sum of the counts before it. */
  lemma TotalStep(cs: seq<CompiledFormat>, k: nat)
    requires k < |cs|
    ensures Total(cs[..k + 1]) == Total(cs[..k]) + Count(cs[k])
  {
    assert cs[..k + 1][..k] == cs[..k];
  }

  /** Offsets never decrease along the list. */
  lemma {:induction false} TotalMonotone(cs: seq<CompiledFormat>, j: nat, k: nat)
    requires j <= k <= |cs|
    ensures Total(cs[..j]) <= Total(cs[..k])
    decreases k - j
  {
    if j < k {
      TotalStep(cs, j);
      TotalMonotone(cs, j + 1, k);
    }
  }

  /** A format with at least one token has an offset below every later format's. */
  lemma TotalStrict(cs: seq<CompiledFormat>, j: nat, k: nat)
    requires j < k <= |cs| && Count(cs[j]) >= 1
    ensures Total(cs[..j]) < Total(cs[..k])
  {
    TotalStep(cs, j);
    TotalMonotone(cs, j + 1, k);
  }

  /** When every format has a token the offsets strictly increase, so each offset names one format. */
  lemma OffsetsInjective(cs: seq<CompiledFormat>, j: nat, k: nat)
    requires forall i :: 0 <= i < |cs| ==> Count(cs[i]) >= 1
    requires j < |cs| && k < |cs| && j != k
    ensures Total(cs[..j]) != Total(cs[..k])
  {
    if j < k {
      TotalStrict(cs, j, k);
    } else {
      TotalStrict(cs, k, j);
    }
  }

  /** A format stays in the index unless a later format has the same offset. */
  lemma {:induction false} IndexLast(m: map<nat, CompiledFormat>, cs: seq<CompiledFormat>, k: nat)
    requires k < |cs|
    requires forall j :: k < j < |cs| ==> Total(cs[..j]) != Total(cs[..k])
    ensures Total(cs[..k]) in IndexFold(m, cs) && IndexFold(m, cs)[Total(cs[..k])] == cs[k]
    decreases |cs|
  {
    var n := |cs| - 1;
    var init := cs[..n];
    if k < n {
      forall j | k < j < |init|
        ensures Total(init[..j]) != Total(init[..k])
      {
        assert init[..j] == cs[..j] && init[..k] == cs[..k];
      }
      IndexLast(m, init, k);
      assert init[..k] == cs[..k] && init[k] == cs[k];
      assert Total(init) != Total(cs[..k]) by {
        assert init == cs[..n];
      }
    }
  }

  /** A later format at the same offset replaces an earlier one in the index. */
  lemma IndexOverwritten(m: map<nat, CompiledFormat>, cs: seq<CompiledFormat>, k: nat)
    requires k + 1 < |cs| && Count(cs[k]) == 0
    requires forall j :: k + 1 < j < |cs| ==> Total(cs[..j]) != Total(cs[..k + 1])
    ensures Total(cs[..k]) in IndexFold(m, cs) && IndexFold(m, cs)[Total(cs[..k])] == cs[k + 1]
  {
    TotalStep(cs, k);
    IndexLast(m, cs, k + 1);
  }

  /** Every format with a token is found in the index at its offset. */
  ghost predicate IndexesAgree(m: map<nat, CompiledFormat>, cs: seq<CompiledFormat>) {
    forall k :: 0 <= k < |cs| && Count(cs[k]) >= 1 ==> Total(cs[..k]) in m && m[Total(cs[..k])] == cs[k]
  }

  lemma IndexFoldAgrees(m: map<nat, CompiledFormat>, cs: seq<CompiledFormat>)
    ensures IndexesAgree(IndexFold(m, cs), cs)
  {
    forall k | 0 <= k < |cs| && Count(cs[k]) >= 1
      ensures Total(cs[..k]) in IndexFold(m, cs) && IndexFold(m, cs)[Total(cs[..k])] == cs[k]
    {
      forall j | k < j < |cs|
        ensures Total(cs[..j]) != Total(cs[..k])
      {
        TotalStrict(cs, k, j);
      }
      IndexLast(m, cs, k);
    }
  }

  /**
   * The formats hash maps each format string of the list to its format,
   * and leaves other strings as they were.
   */
  lemma {:induction false} HashFoldLookup(h: map<string, CompiledFormat>, cs: seq<CompiledFormat>, x: string)
    ensures x in HashFold(h, cs) <==> x in h || exists i :: 0 <= i < |cs| && cs[i].formatString == x
    ensures (forall i :: 0 <= i < |cs| ==> cs[i].formatString != x) ==>
      (x in h ==> HashFold(h, cs)[x] == h[x])
    ensures forall i :: (0 <= i < |cs| && cs[i].formatString == x &&
                         (forall j :: i < j < |cs| ==> cs[j].formatString != x)) ==> HashFold(h, cs)[x] == cs[i]
    decreases |cs|
  {
    if cs != [] {
      var n := |cs| - 1;
      var init := cs[..n];
      HashFoldLookup(h, init, x);
      assert forall i :: 0 <= i < n ==> init[i] == cs[i];
      if cs[n].formatString != x {
        assert (exists i :: 0 <= i < |cs| && cs[i].formatString == x) ==>
               (exists i :: 0 <= i < |init| && init[i].formatString == x);
      }
    }
  }

  // ------------------------------------------------------------ the captures of a match

  // The groups of branches that did not take part are `Nones`; those of the
  // branch that matched, `Somes` of its captures.

  /**
   * The branch of the alternation that matches all of `s`: the first from
   * `k` on in list order, with its captures. An atomic branch that matches
   * a proper prefix fails at `\z`, and the engine moves on to the next.
   */
  function WinningFrom(cs: seq<CompiledFormat>, s: string, k: nat): (r: Option<(nat, seq<string>)>)
    requires k <= |cs|
    ensures r.Some? ==> k <= r.value.0 < |cs| && AnchoredMatch(cs[r.value.0].pattern, s) == Some(r.value.1)
    ensures r.Some? ==> forall j :: k <= j < r.value.0 ==> AnchoredMatch(cs[j].pattern, s).None?
    ensures r.None? ==> forall j :: k <= j < |cs| ==> AnchoredMatch(cs[j].pattern, s).None?
    decreases |cs| - k
  {
    if k == |cs| then None
    else
      var m := AnchoredMatch(cs[k].pattern, s);
      if m.Some? then Some((k, m.value)) else WinningFrom(cs, s, k + 1)
  }

  /**
   * `match_data.captures` of the merged regexp: nil for the groups of every
   * branch but the winner. An empty list gives `\A(?:)\z`, which matches
   * only the empty string and has no groups.
   */
  function SetCaptures(cs: seq<CompiledFormat>, s: string): Option<seq<Option<string>>>
  {
    if cs == [] then (if s == [] then Some([]) else None)
    else
      var w := WinningFrom(cs, s, 0);
      if w.None? then None
      else
        var (k, caps) := w.value;
        Some(Nones(GroupTotal(cs[..k])) + Somes(caps) + Nones(GroupTotal(cs[k + 1..])))
  }

  /** `captures.index { |e| !e.nil? }`. */
  function FirstNonNil(xs: seq<Option<string>>): (r: Option<nat>)
    ensures r.Some? ==> r.value < |xs| && xs[r.value].Some? && forall j :: 0 <= j < r.value ==> xs[j].None?
    ensures r.None? ==> forall j :: 0 <= j < |xs| ==> xs[j].None?
  {
    if xs == [] then None
    else if xs[0].Some? then Some(0)
    else
      var r := FirstNonNil(xs[1..]);
      if r.None? then None else Some(r.value + 1)
  }

  /** `captures[index, 8]`: at most eight values from `index` on. */
  function Slice(xs: seq<Option<string>>, index: nat): (r: seq<Option<string>>)
    requires index <= |xs|
    ensures |r| == if |xs| - index < 8 then |xs| - index else 8
    ensures forall j :: 0 <= j < |r| ==> r[j] == xs[index + j]
  {
    if |xs| - index < 8 then xs[index..] else xs[index..index + 8]
  }

  /** The first non-nil capture of a winning block is the block's first group. */
  lemma FirstNonNilBlock(a: nat, caps: seq<string>, b: nat)
    ensures var i := FirstNonNil(Nones(a) + Somes(caps) + Nones(b));
      (caps == [] ==> i.None?) && (caps != [] ==> i == Some(a))
  {
    var xs := Nones(a) + Somes(caps) + Nones(b);
    if caps != [] {
      assert xs[a] == Some(caps[0]);
    } else {
      assert forall j :: 0 <= j < |xs| ==> xs[j].None? by {
        forall j | 0 <= j < |xs|
          ensures xs[j].None?
        {
          if j < a { assert xs[j] == Nones(a)[j]; } else { assert xs[j] == Nones(b)[j - a]; }
        }
      }
    }
  }

  /**
   * The eight values from the block's start are the block's captures,
   * cut at eight, followed by nils from the branches after it.
   */
  lemma SliceBlock(a: nat, caps: seq<string>, b: nat)
    ensures var xs := Nones(a) + Somes(caps) + Nones(b);
      a <= |xs| &&
      (|caps| <= 8 ==> exists n: nat :: Slice(xs, a) == Somes(caps) + Nones(n)) &&
      (|caps| > 8 ==> |Slice(xs, a)| == 8)
  {
    var xs := Nones(a) + Somes(caps) + Nones(b);
    if |caps| <= 8 {
      var r := Slice(xs, a);
      var n: nat := |r| - |caps|;
      forall j | 0 <= j < |r|
        ensures r[j] == (Somes(caps) + Nones(n))[j]
      {
        assert r[j] == xs[a + j];
      }
      assert r == Somes(caps) + Nones(n);
    }
  }

  // ------------------------------------------------------------ intended meaning

  /**
   * What matching a format means: its `process` applied to its own
   * captures, or the error that raises: none for a format with no
   * token, ArgumentError for one with more than eight.
   */
  function BranchResult(c: CompiledFormat, caps: seq<string>, ctx: Context): Result<Option<seq<Option<int>>>>
  {
    if caps == [] then Err(NoCaptures)
    else if |caps| > 8 then Err(WrongArity)
    else
      var p := Process(c.tokenOrder, Somes(caps), ctx);
      if p.Err? then Err(p.error) else Ok(Some(p.value))
  }

  /** The pattern of a compiled format has one group per role of its `process`. */
  lemma {:induction false} RolesOfGroups(p: seq<Segment>)
    ensures |RolesOf(p)| == |CapturingSegs(p)|
  {
    if p != [] {
      RolesOfGroups(p[1..]);
    }
  }

  /** Formats that `compile!` produced: their roles are the pattern's groups. */
  ghost predicate Coherent(cs: seq<CompiledFormat>) {
    forall i :: 0 <= i < |cs| ==> cs[i].tokenOrder == RolesOf(cs[i].pattern)
  }

  lemma CountIsGroups(c: CompiledFormat)
    requires c.tokenOrder == RolesOf(c.pattern)
    ensures Count(c) == Groups(c)
  {
    RolesOfGroups(c.pattern);
  }

  /** For compiled formats the token-count offsets are the capture numbers. */
  lemma {:induction false} TotalIsGroupTotal(cs: seq<CompiledFormat>)
    requires Coherent(cs)
    ensures Total(cs) == GroupTotal(cs)
    decreases |cs|
  {
    if cs != [] {
      var n := |cs| - 1;
      assert Coherent(cs[..n]) by {
        assert forall i :: 0 <= i < n ==> cs[..n][i] == cs[i];
      }
      TotalIsGroupTotal(cs[..n]);
      CountIsGroups(cs[n]);
    }
  }

  lemma CompiledCoherent(formats: seq<string>, keys: seq<TokenSpec>)
    ensures Coherent(CompileAll(formats, keys).0)
  {
    var cs := CompileAll(formats, keys).0;
    CompileAllPrefix(formats, keys);
    forall i | 0 <= i < |cs|
      ensures cs[i].tokenOrder == RolesOf(cs[i].pattern)
    {
      CompiledOrder(formats[i], keys);
    }
  }

  /**
   * `match_data` handling shared by both paths: find the first non-nil
   * capture, take eight values from it, and call `process` of the given
   * format, or else of the one the index holds at that capture number.
   */
  function Extract(captures: seq<Option<string>>, format: Option<CompiledFormat>, indexes: map<nat, CompiledFormat>,
                   ctx: Context): (r: Result<Option<seq<Option<int>>>>)
    ensures r.Ok? && r.value.Some? ==> |r.value.value| == 8
  {
    var index := FirstNonNil(captures);
    if index.None? then Err(NoCaptures)
    else
      var values := Slice(captures, index.value);
      var f := if format.Some? then format
               else if index.value in indexes then Some(indexes[index.value]) else None;
      if f.None? then Err(NilReceiver)
      else
        var p := Process(f.value.tokenOrder, values, ctx);
        if p.Err? then Err(p.error) else Ok(Some(p.value))
  }

  /**
   * The values of a block of captures are what the format means, whether
   * it is given or found: `*_` absorbs the nils after the block, and a
   * ninth role finds no ninth argument.
   */
  lemma ExtractBlock(a: nat, caps: seq<string>, b: nat, c: CompiledFormat,
                     format: Option<CompiledFormat>, indexes: map<nat, CompiledFormat>, ctx: Context)
    requires c.tokenOrder == RolesOf(c.pattern) && |caps| == Groups(c)
    requires format == Some(c) || (format.None? && (caps != [] ==> a in indexes && indexes[a] == c))
    ensures Extract(Nones(a) + Somes(caps) + Nones(b), format, indexes, ctx) == BranchResult(c, caps, ctx)
  {
    var xs := Nones(a) + Somes(caps) + Nones(b);
    FirstNonNilBlock(a, caps, b);
    SliceBlock(a, caps, b);
    CountIsGroups(c);
    if caps != [] && |caps| <= 8 {
      var n: nat :| Slice(xs, a) == Somes(caps) + Nones(n);
      ProcessIgnoresSurplus(c.tokenOrder, Somes(caps), Nones(n), ctx);
    }
  }

  /** The formats compiled so far, in front of what compiling the rest gives. */
  function Joined(done: seq<CompiledFormat>, rest: (seq<CompiledFormat>, Option<Error>)): (seq<CompiledFormat>, Option<Error>) {
    (done + rest.0, rest.1)
  }

  lemma CompileAllFrom(formats: seq<string>, keys: seq<TokenSpec>)
    ensures CompileAll(formats, keys) == Joined([], CompileAll(formats[0..], keys))
  {
    assert formats[0..] == formats;
    assert [] + CompileAll(formats, keys).0 == CompileAll(formats, keys).0;
  }

  /** One more format compiled: it joins those done. */
  lemma CompileAllStep(formats: seq<string>, keys: seq<TokenSpec>, i: nat, done: seq<CompiledFormat>)
    requires i < |formats| && Compiled(formats[i], keys).Ok?
    requires CompileAll(formats, keys) == Joined(done, CompileAll(formats[i..], keys))
    ensures CompileAll(formats, keys) == Joined(done + [Compiled(formats[i], keys).value], CompileAll(formats[i + 1..], keys))
  {
    assert formats[i..][1..] == formats[i + 1..];
    var c := Compiled(formats[i], keys).value;
    assert done + ([c] + CompileAll(formats[i + 1..], keys).0) == (done + [c]) + CompileAll(formats[i + 1..], keys).0;
  }

  /** The loop ends at the end of the list or at the first format that fails. */
  lemma CompileAllStop(formats: seq<string>, keys: seq<TokenSpec>, i: nat, done: seq<CompiledFormat>)
    requires i <= |formats| && (i < |formats| ==> Compiled(formats[i], keys).Err?)
    requires CompileAll(formats, keys) == Joined(done, CompileAll(formats[i..], keys))
    ensures CompileAll(formats, keys) == (done, if i == |formats| then None else Some(Compiled(formats[i], keys).error))
  {
    assert done + [] == done;
  }

  /** Entering one more format in the hash and the index. */
  lemma FoldsStep(h: map<string, CompiledFormat>, m: map<nat, CompiledFormat>, done: seq<CompiledFormat>, c: CompiledFormat)
    ensures HashFold(h, done + [c]) == HashFold(h, done)[c.formatString := c]
    ensures IndexFold(m, done + [c]) == IndexFold(m, done)[Total(done) := c]
    ensures Total(done + [c]) == Total(done) + Count(c)
  {
    assert (done + [c])[..|done|] == done;
  }

  /** A hash whose entries are what compiling their keys gives. */
  ghost predicate HashCompiled(h: map<string, CompiledFormat>, keys: seq<TokenSpec>) {
    forall x :: x in h ==> Compiled(x, keys) == Ok(h[x])
  }

  /** Entering a compiled format keeps the hash faithful. */
  lemma HashStep(h: map<string, CompiledFormat>, c: CompiledFormat, keys: seq<TokenSpec>)
    requires HashCompiled(h, keys) && Compiled(c.formatString, keys) == Ok(c)
    ensures HashCompiled(h[c.formatString := c], keys)
  {
  }

  /**
   * The `inject` loop of `compile!`: a new `Format` per string, compiled,
   * then entered in the hash and, at the running offset, in the index. The
   * first failure ends the loop with the entries made so far.
   */
  method CompileEach(formats: seq<string>, keys: seq<TokenSpec>, h0: map<string, CompiledFormat>, m0: map<nat, CompiledFormat>)
    returns (err: Option<Error>, hash: map<string, CompiledFormat>, indexes: map<nat, CompiledFormat>, done: seq<CompiledFormat>)
    requires HashCompiled(h0, keys)
    ensures CompileAll(formats, keys) == (done, err)
    ensures hash == HashFold(h0, done) && indexes == IndexFold(m0, done)
    ensures HashCompiled(hash, keys)
  {
    done, hash, indexes := [], h0, m0;
    var index: nat := 0;
    var i := 0;
    CompileAllFrom(formats, keys);
    while i < |formats|
      invariant 0 <= i <= |formats| && index == Total(done)
      invariant CompileAll(formats, keys) == Joined(done, CompileAll(formats[i..], keys))
      invariant hash == HashFold(h0, done) && indexes == IndexFold(m0, done)
      invariant HashCompiled(hash, keys)
    {
      var f := new Format(formats[i]);
      var res := f.Compile(keys);
      if res.Err? {
        CompileAllStop(formats, keys, i, done);
        return Some(res.error), hash, indexes, done;
      }
      var c := f.Value();
      CompileAllStep(formats, keys, i, done);
      FoldsStep(h0, m0, done, c);
      HashStep(hash, c, keys);
      hash := hash[formats[i] := c];
      indexes := indexes[index := c];
      done := done + [c];
      index := index + f.tokenCount;
      i := i + 1;
    }
    CompileAllStop(formats, keys, i, done);
    err := None;
  }

  // ------------------------------------------------------------ the object

  class FormatSet {
    /** `@formats`, fixed at construction. */
    const formats: seq<string>
    /** `Definitions.sorted_token_keys`, the catalog `compile!` reads. */
    const keys: seq<TokenSpec>
    var formatsHash: map<string, CompiledFormat>
    var matchIndexes: map<nat, CompiledFormat>
    /** Whether `@regexp` is set. */
    var compiled: bool
    /** `@regexp`: the alternation of these branches. */
    var branches: seq<CompiledFormat>

    /**
     * The hash only ever holds what compiling its key gives, and a set
     * whose regexp is built has every format of the list as a branch and
     * every branch with a token in the index at its offset.
     */
    ghost predicate Valid()
      reads this
    {
      HashCompiled(formatsHash, keys) &&
      (compiled ==> CompileAll(formats, keys) == (branches, None) && IndexesAgree(matchIndexes, branches))
    }

    /** `FormatSet.new(formats)`. */
    constructor(formats: seq<string>, keys: seq<TokenSpec>)
      ensures this.formats == formats && this.keys == keys
      ensures formatsHash == map[] && matchIndexes == map[] && !compiled && branches == []
      ensures Valid()
    {
      this.formats, this.keys := formats, keys;
      formatsHash, matchIndexes, compiled, branches := map[], map[], false, [];
    }

    /**
     * `compile!`: compiles each format in list order, entering it in the
     * hash and, at the running sum of token counts, in the index, and then
     * builds the alternation. A format that fails to compile raises out of
     * the loop, leaving the entries made so far and the old regexp.
     */
    method Compile() returns (r: Result<Unit>)
      requires Valid()
      modifies this
      ensures var (done, err) := CompileAll(formats, keys);
        formatsHash == HashFold(old(formatsHash), done) && matchIndexes == IndexFold(old(matchIndexes), done) &&
        (err.Some? ==> r == Err(err.value) && compiled == old(compiled) && branches == old(branches)) &&
        (err.None? ==> r == Ok(Unit) && compiled && branches == done)
      ensures Valid()
    {
      var err, hash, indexes, done := CompileEach(formats, keys, formatsHash, matchIndexes);
      formatsHash, matchIndexes := hash, indexes;
      if err.Some? {
        return Err(err.value);
      }
      IndexFoldAgrees(old(matchIndexes), done);
      branches, compiled := done, true;
      r := Ok(Unit);
    }

    /**
     * `single_format`: the hashed format, or else the string compiled on
     * the spot, which is not added to the hash.
     */
    function SingleFormat(formatString: string): Result<CompiledFormat>
      reads this
    {
      if formatString in formatsHash then Ok(formatsHash[formatString]) else Compiled(formatString, keys)
    }

    /** The hash is transparent: a hashed format is what compiling its string gives. */
    lemma SingleFormatCompiles(formatString: string)
      requires Valid()
      ensures SingleFormat(formatString) == Compiled(formatString, keys)
    {
    }

    /**
     * `match(string, format_string)`: with a format string only that
     * format's regexp is run, otherwise the merged one (`@regexp` being nil
     * before `compile!`); no match gives nil.
     */
    function Match(s: string, formatString: Option<string>, ctx: Context): (r: Result<Option<seq<Option<int>>>>)
      reads this
      ensures r.Ok? && r.value.Some? ==> |r.value.value| == 8
    {
      if formatString.Some? then
        var f := SingleFormat(formatString.value);
        if f.Err? then Err(f.error)
        else
          var caps := AnchoredMatch(f.value.pattern, s);
          if caps.None? then Ok(None) else Extract(Somes(caps.value), Some(f.value), matchIndexes, ctx)
      else if !compiled then Err(NilReceiver)
      else
        var caps := SetCaptures(branches, s);
        if caps.None? then Ok(None) else Extract(caps.value, None, matchIndexes, ctx)
    }

    /**
     * The first branch in list order that matches the whole string decides
     * the result: the captures before it are nil, its first capture's
     * number is its offset, and the index returns it there.
     */
    lemma MatchFirstBranch(s: string, ctx: Context, k: nat, caps: seq<string>)
      requires Valid() && compiled
      requires WinningFrom(branches, s, 0) == Some((k, caps))
      ensures Match(s, None, ctx) == BranchResult(branches[k], caps, ctx)
    {
      var cs := branches;
      CompiledCoherent(formats, keys);
      assert Coherent(cs[..k]) by {
        assert forall i :: 0 <= i < k ==> cs[..k][i] == cs[i];
      }
      TotalIsGroupTotal(cs[..k]);
      AnchoredMatchCaptureCount(cs[k].pattern, s);
      CountIsGroups(cs[k]);
      ExtractBlock(GroupTotal(cs[..k]), caps, GroupTotal(cs[k + 1..]), cs[k], None, matchIndexes, ctx);
    }

    /** A string no branch matches gives nil. */
    lemma MatchNoBranch(s: string, ctx: Context)
      requires compiled && branches != []
      requires forall j :: 0 <= j < |branches| ==> AnchoredMatch(branches[j].pattern, s).None?
      ensures Match(s, None, ctx) == Ok(None)
    {
    }

    /**
     * With a format string, the result is that format's meaning on its
     * own match, or nil, or the compile error of an unknown bad string.
     */
    lemma MatchSingle(s: string, formatString: string, ctx: Context)
      requires Valid()
      ensures var c := Compiled(formatString, keys);
        Match(s, Some(formatString), ctx) ==
          if c.Err? then Err(CompilationFailed(formatString))
          else if AnchoredMatch(c.value.pattern, s).None? then Ok(None)
          else BranchResult(c.value, AnchoredMatch(c.value.pattern, s).value, ctx)
    {
      var c := Compiled(formatString, keys);
      CompiledFailsIffRoleRepeats(formatString, keys);
      if c.Ok? && AnchoredMatch(c.value.pattern, s).Some? {
        var caps := AnchoredMatch(c.value.pattern, s).value;
        CompiledOrder(formatString, keys);
        AnchoredMatchCaptureCount(c.value.pattern, s);
        assert Nones(0) + Somes(caps) + Nones(0) == Somes(caps);
        ExtractBlock(0, caps, 0, c.value, Some(c.value), matchIndexes, ctx);
      }
    }
  }

  /** `FormatSet.compile(formats)`: a new set, compiled, or the error its compilation raised. */
  method CompileSet(formats: seq<string>, keys: seq<TokenSpec>) returns (r: Result<FormatSet>)
    ensures var (done, err) := CompileAll(formats, keys);
      (r.Err? <==> err.Some?) && (r.Err? ==> r.error == err.value) &&
      (r.Ok? ==> fresh(r.value) && r.value.Valid() && r.value.compiled &&
                 r.value.formats == formats && r.value.keys == keys && r.value.branches == done)
  {
    var fset := new FormatSet(formats, keys);
    var c := fset.Compile();
    if c.Err? {
      return Err(c.error);
    }
    r := Ok(fset);
  }
}
