/**
 * `tap search`: compile every token, fold the tokens' matchers with
 * `OrCombiner`, run the query over the package cache, sort the results by
 * `namever_key`, size the name and version columns and render one line per
 * result.
 */
module Search {
  import opened Wrappers
  import opened Packages
  import opened Merge
  import opened Matchers
  import opened MatcherFacts
  import opened Pattern
  import opened PatternFacts
  import opened Classification
  import opened Template

  /** Why a search prints no listing: a token that does not parse, or nothing to list (exit status 1). */
  datatype SearchError =
    | BadPattern(e: ParseError)
    | NoResults
    | NoMatchAttribute     // the `AttributeError` of the code as written, see `SearchAsWritten`

  /** The tokens' matchers in order, or the error of the first token that does not compile. */
  function CompileAll(tokens: seq<string>, defaultArch: string): (r: Result<seq<Matcher>, ParseError>)
    ensures r.Ok? ==> |r.value| == |tokens|
  {
    if tokens == [] then Ok([])
    else
      match CompileToken(tokens[0], defaultArch)
      case Err(e) => Err(e)
      case Ok(m) =>
        match CompileAll(tokens[1..], defaultArch)
        case Err(e) => Err(e)
        case Ok(ms) => Ok([m] + ms)
  }

  /** Every token compiles, each to its own matcher, or the error is that of the first token that does not. */
  lemma {:induction false} CompileAllSpec(tokens: seq<string>, defaultArch: string)
    ensures CompileAll(tokens, defaultArch).Ok? <==> forall i :: 0 <= i < |tokens| ==> CompileToken(tokens[i], defaultArch).Ok?
    ensures CompileAll(tokens, defaultArch).Ok? ==>
      forall i :: 0 <= i < |tokens| ==> CompileToken(tokens[i], defaultArch) == Ok(CompileAll(tokens, defaultArch).value[i])
    ensures CompileAll(tokens, defaultArch).Err? ==>
      exists i :: 0 <= i < |tokens| && CompileToken(tokens[i], defaultArch) == Err(CompileAll(tokens, defaultArch).error)
        && forall j :: 0 <= j < i ==> CompileToken(tokens[j], defaultArch).Ok?
  {
    if tokens != [] {
      CompileAllSpec(tokens[1..], defaultArch);
      assert forall i :: 1 <= i < |tokens| ==> tokens[1..][i - 1] == tokens[i];
      var r := CompileAll(tokens, defaultArch);
      if CompileToken(tokens[0], defaultArch).Ok? && CompileAll(tokens[1..], defaultArch).Err? {
        var k :| 0 <= k < |tokens[1..]| && CompileToken(tokens[1..][k], defaultArch) == Err(r.error)
          && forall j :: 0 <= j < k ==> CompileToken(tokens[1..][j], defaultArch).Ok?;
        assert CompileToken(tokens[k + 1], defaultArch) == Err(r.error);
        assert forall j :: 1 <= j < k + 1 ==> CompileToken(tokens[j], defaultArch).Ok?;
      }
    }
  }

  /** The query `cond`: none without tokens, else the right fold of the tokens' matchers with `OrCombiner`. */
  function Query(tokens: seq<string>, defaultArch: string): Result<Option<Matcher>, ParseError> {
    match CompileAll(tokens, defaultArch)
    case Err(e) => Err(e)
    case Ok(ms) => Ok(if ms == [] then None else Some(Chain(OrOp, ms)))
  }

  /** `[cond.match(p) for p in cache]`. */
  function PerPackage(m: Matcher, cache: seq<Package>): (rs: seq<seq<Entry>>)
    ensures |rs| == |cache|
  {
    seq(|cache|, i requires 0 <= i < |cache| => Match(m, cache[i]))
  }

  /** `itertools.chain(*lists)`. */
  function Flatten(ss: seq<seq<Entry>>): seq<Entry> {
    if ss == [] then [] else Flatten(ss[..|ss| - 1]) + ss[|ss| - 1]
  }

  function Collect(m: Matcher, cache: seq<Package>): seq<Entry> {
    Flatten(PerPackage(m, cache))
  }

  /** The sorted result list. */
  function Results(m: Matcher, cache: seq<Package>): seq<Entry> {
    SortByKey(Collect(m, cache))
  }

  lemma FlattenSnoc(ss: seq<seq<Entry>>, k: nat)
    requires k < |ss|
    ensures Flatten(ss[..k + 1]) == Flatten(ss[..k]) + ss[k]
  {
    assert ss[..k + 1][..k] == ss[..k] && ss[..k + 1][k] == ss[k];
  }

  lemma {:induction false} FlattenMembers(ss: seq<seq<Entry>>)
    ensures forall e :: e in Flatten(ss) <==> exists i :: 0 <= i < |ss| && e in ss[i]
  {
    if ss != [] {
      var init := ss[..|ss| - 1];
      FlattenMembers(init);
      assert forall i :: 0 <= i < |init| ==> init[i] == ss[i];
      assert forall e :: e in Flatten(ss) <==> e in Flatten(init) || e in ss[|ss| - 1];
    }
  }

  lemma {:induction false} FlattenEmpty(ss: seq<seq<Entry>>)
    ensures Flatten(ss) == [] <==> forall i :: 0 <= i < |ss| ==> ss[i] == []
  {
    if ss != [] {
      var init := ss[..|ss| - 1];
      FlattenEmpty(init);
      assert forall i :: 0 <= i < |init| ==> init[i] == ss[i];
      assert |Flatten(ss)| == |Flatten(init)| + |ss[|ss| - 1]|;
    }
  }

  /** A result is listed exactly when the query matches it in some package of the cache; the list is sorted. */
  lemma {:induction false} ResultsMembers(m: Matcher, cache: seq<Package>)
    ensures SortedByKey(Results(m, cache))
    ensures forall e :: e in Results(m, cache) <==> exists i :: 0 <= i < |cache| && e in PerPackage(m, cache)[i]
  {
    FlattenMembers(PerPackage(m, cache));
    SameMembers(Results(m, cache), Collect(m, cache));
  }

  /** `max(len(r[0]) for r in results)`. */
  function MaxNameLen(rs: seq<Entry>): (n: nat)
    requires rs != []
    ensures forall e :: e in rs ==> |e.name| <= n
    ensures exists e :: e in rs && |e.name| == n
  {
    if |rs| == 1 then |rs[0].name|
    else
      var rest := MaxNameLen(rs[1..]);
      assert forall e :: e in rs ==> e == rs[0] || e in rs[1..];
      if |rs[0].name| < rest then rest else |rs[0].name|
  }

  /** `max(len(r[1].version) for r in results)`. */
  function MaxVerLen(rs: seq<Entry>): (n: nat)
    requires rs != []
    ensures forall e :: e in rs ==> |e.ver.version| <= n
    ensures exists e :: e in rs && |e.ver.version| == n
  {
    if |rs| == 1 then |rs[0].ver.version|
    else
      var rest := MaxVerLen(rs[1..]);
      assert forall e :: e in rs ==> e == rs[0] || e in rs[1..];
      if |rs[0].ver.version| < rest then rest else |rs[0].ver.version|
  }

  /** `config.get(key, default)`. */
  function FormatFor(config: map<Target, Template>, key: Target, default: Template): Template {
    if key in config then config[key] else default
  }

  /** The substitution dictionary of one line. */
  function ValuesOf(e: Entry, f: Flags): Values {
    Values([f.state], [f.automatic], [f.upgrade], e.ver.arch, e.name, e.pkg.name, e.ver.version, e.ver.summary)
  }

  /** One line of the listing: virtual names use the virtual format. */
  function Line(e: Entry, format: Template, vformat: Template, nameLen: nat, verLen: nat): string {
    Render(if Virtual(e) then vformat else format, ValuesOf(e, Classify(e)), nameLen, verLen)
  }

  function Listing(rs: seq<Entry>, config: map<Target, Template>): (lines: seq<string>)
    requires rs != []
    ensures |lines| == |rs|
  {
    var format := FormatFor(config, FormatKey, DefaultFormat);
    var vformat := FormatFor(config, VirtualFormatKey, DefaultVirtualFormat);
    seq(|rs|, i requires 0 <= i < |rs| => Line(rs[i], format, vformat, MaxNameLen(rs), MaxVerLen(rs)))
  }

  /** What `search(config, args)` prints, or why it prints no listing. */
  function SearchSpec(tokens: seq<string>, cache: seq<Package>, config: map<Target, Template>, defaultArch: string)
    : (r: Result<seq<string>, SearchError>)
  {
    match Query(tokens, defaultArch)
    case Err(e) => Err(BadPattern(e))
    case Ok(None) => Err(NoResults)
    case Ok(Some(m)) =>
      var rs := Results(m, cache);
      if rs == [] then Err(NoResults) else Ok(Listing(rs, config))
  }

  /** Sorting leaves a list empty exactly when it was empty. */
  lemma SortedEmpty(s: seq<Entry>)
    ensures SortByKey(s) == [] <==> s == []
  {
    assert |SortByKey(s)| == |multiset(SortByKey(s))| == |multiset(s)| == |s|;
  }

  /** The result list is empty exactly when the query matches nothing in every package. */
  lemma ResultsEmpty(m: Matcher, cache: seq<Package>)
    ensures Results(m, cache) == [] <==> forall i :: 0 <= i < |cache| ==> PerPackage(m, cache)[i] == []
  {
    SortedFlattenEmpty(PerPackage(m, cache));
  }

  lemma SortedFlattenEmpty(ss: seq<seq<Entry>>)
    ensures SortByKey(Flatten(ss)) == [] <==> forall i :: 0 <= i < |ss| ==> ss[i] == []
  {
    FlattenEmpty(ss);
    SortedEmpty(Flatten(ss));
  }

  /** `search` prints "No results for search" and returns 1 without tokens, or when no package matches the query. */
  lemma {:induction false} NoResultsMeansNoMatch(tokens: seq<string>, cache: seq<Package>, config: map<Target, Template>, defaultArch: string)
    ensures tokens == [] ==> SearchSpec(tokens, cache, config, defaultArch) == Err(NoResults)
    ensures tokens != [] && CompileAll(tokens, defaultArch).Ok? ==>
      var m := Chain(OrOp, CompileAll(tokens, defaultArch).value);
      (SearchSpec(tokens, cache, config, defaultArch) == Err(NoResults) <==> Results(m, cache) == [])
  {
  }

  /** A token that does not compile is reported, and only then; a listing has one line per result. */
  lemma {:induction false} SearchOutcomes(tokens: seq<string>, cache: seq<Package>, config: map<Target, Template>, defaultArch: string)
    ensures (SearchSpec(tokens, cache, config, defaultArch).Err? && SearchSpec(tokens, cache, config, defaultArch).error.BadPattern?)
            <==> CompileAll(tokens, defaultArch).Err?
    ensures SearchSpec(tokens, cache, config, defaultArch).Ok? ==>
              tokens != [] && CompileAll(tokens, defaultArch).Ok? &&
              var m := Chain(OrOp, CompileAll(tokens, defaultArch).value);
              |SearchSpec(tokens, cache, config, defaultArch).value| == |Results(m, cache)| > 0
    ensures SearchSpec(tokens, cache, config, defaultArch) != Err(NoMatchAttribute)
  {
    if CompileAll(tokens, defaultArch).Ok? {
      var ms := CompileAll(tokens, defaultArch).value;
      assert ms == [] <==> tokens == [];
    }
  }

  // ---------------------------------------------------------------------------
  // Column layout of the built-in formats

  /** The built-in format's part after the name column. */
  function DefaultTailFor(e: Entry): Template {
    if Virtual(e) then VirtualTail else DefaultTail
  }

  /** A line of the listing under the built-in formats. */
  lemma {:induction false} DefaultLine(rs: seq<Entry>, config: map<Target, Template>, i: nat)
    requires rs != [] && i < |rs| && FormatKey !in config && VirtualFormatKey !in config
    ensures Listing(rs, config)[i] == Render(ListingHead + DefaultTailFor(rs[i]),
      ValuesOf(rs[i], Classify(rs[i])), MaxNameLen(rs), MaxVerLen(rs))
  {
    assert Listing(rs, config)[i] == Line(rs[i], DefaultFormat, DefaultVirtualFormat, MaxNameLen(rs), MaxVerLen(rs));
  }

  /**
   * With the built-in formats, and architectures of at most six characters,
   * every line has its padded name at column 11 and the rest of the line after
   * column `11 + namelen`, so the version columns line up.
   */
  lemma {:induction false} DefaultColumnsAlign(rs: seq<Entry>, config: map<Target, Template>, i: nat)
    requires rs != [] && FormatKey !in config && VirtualFormatKey !in config
    requires i < |rs| && |rs[i].ver.arch| <= ArchWidth
    ensures var n := MaxNameLen(rs);
      && |Listing(rs, config)[i]| >= 11 + n
      && Listing(rs, config)[i][11..11 + n] == Pad(rs[i].name, n)
      && Listing(rs, config)[i][11 + n..]
         == Render(DefaultTailFor(rs[i]), ValuesOf(rs[i], Classify(rs[i])), n, MaxVerLen(rs))
  {
    var n, v := MaxNameLen(rs), MaxVerLen(rs);
    var e := rs[i];
    assert |e.name| <= n by { assert e in rs; }
    var vals := ValuesOf(e, Classify(e));
    DefaultLine(rs, config, i);
    HeadColumns(DefaultTailFor(e), vals, n, v);
  }

  // ---------------------------------------------------------------------------
  // The imperative pipeline

  /** The token loop `for arg in args: conds.append(make_search(arg))`. */
  method CompileTokens(tokens: seq<string>, defaultArch: string) returns (r: Result<seq<Matcher>, ParseError>)
    ensures r == CompileAll(tokens, defaultArch)
  {
    var conds: seq<Matcher> := [];
    assert tokens[0..] == tokens;
    if CompileAll(tokens, defaultArch).Ok? {
      assert [] + CompileAll(tokens, defaultArch).value == CompileAll(tokens, defaultArch).value;
    }
    for k := 0 to |tokens|
      invariant CompileAll(tokens, defaultArch) == PrependConds(conds, CompileAll(tokens[k..], defaultArch))
    {
      assert tokens[k..][0] == tokens[k] && tokens[k..][1..] == tokens[k + 1..];
      var cond := MakeSearch(tokens[k], defaultArch);
      if cond.Err? {
        return Err(cond.error);
      }
      PrependCondsStep(conds, cond.value, CompileAll(tokens[k + 1..], defaultArch));
      conds := conds + [cond.value];
    }
    assert tokens[|tokens|..] == [];
    assert conds + [] == conds;
    return Ok(conds);
  }

  function PrependConds(ms: seq<Matcher>, r: Result<seq<Matcher>, ParseError>): Result<seq<Matcher>, ParseError> {
    match r
    case Err(e) => Err(e)
    case Ok(rest) => Ok(ms + rest)
  }

  lemma PrependCondsStep(ms: seq<Matcher>, m: Matcher, r: Result<seq<Matcher>, ParseError>)
    ensures PrependConds(ms, match r case Err(e) => Err(e) case Ok(rest) => Ok([m] + rest)) == PrependConds(ms + [m], r)
  {
    if r.Ok? {
      assert ms + ([m] + r.value) == ms + [m] + r.value;
    }
  }

  /** The cache loop `[cond.match(p) for p in cache]`, flattened as it goes. */
  method CollectMatches(m: Matcher, cache: seq<Package>) returns (all: seq<Entry>)
    ensures all == Collect(m, cache)
  {
    ghost var lists := PerPackage(m, cache);
    all := [];
    for k := 0 to |cache|
      invariant all == Flatten(lists[..k])
    {
      var found := Evaluate(m, cache[k]);
      FlattenSnoc(lists, k);
      assert lists[k] == found;
      all := all + found;
    }
    assert lists[..|cache|] == lists;
  }

  /** The output loop: one rendered line per result. */
  method RenderLines(rs: seq<Entry>, format: Template, vformat: Template, nameLen: nat, verLen: nat)
    returns (lines: seq<string>)
    ensures |lines| == |rs|
    ensures forall i :: 0 <= i < |rs| ==> lines[i] == Line(rs[i], format, vformat, nameLen, verLen)
  {
    lines := [];
    for k := 0 to |rs|
      invariant |lines| == k
      invariant forall i :: 0 <= i < k ==> lines[i] == Line(rs[i], format, vformat, nameLen, verLen)
    {
      var e := rs[k];
      var flags := Classify(e);
      var lineformat := if Virtual(e) then vformat else format;
      lines := lines + [Render(lineformat, ValuesOf(e, flags), nameLen, verLen)];
    }
  }

  /** `SearchSpec` once every token has compiled to at least one matcher. */
  lemma SearchSpecOfQuery(tokens: seq<string>, cache: seq<Package>, config: map<Target, Template>, defaultArch: string, conds: seq<Matcher>)
    requires CompileAll(tokens, defaultArch) == Ok(conds) && conds != []
    ensures var rs := Results(Chain(OrOp, conds), cache);
      SearchSpec(tokens, cache, config, defaultArch) == if rs == [] then Err(NoResults) else Ok(Listing(rs, config))
  {
    assert Query(tokens, defaultArch) == Ok(Some(Chain(OrOp, conds)));
  }

  /** `search(config, args)` over the given cache and default architecture. */
  method Search(tokens: seq<string>, cache: seq<Package>, config: map<Target, Template>, defaultArch: string)
    returns (r: Result<seq<string>, SearchError>)
    ensures r == SearchSpec(tokens, cache, config, defaultArch)
  {
    var compiled := CompileTokens(tokens, defaultArch);
    if compiled.Err? {
      return Err(BadPattern(compiled.error));
    }
    var conds := compiled.value;
    if conds == [] {
      return Err(NoResults);
    }
    var cond := FoldRight(conds, OrOp);
    SearchSpecOfQuery(tokens, cache, config, defaultArch, conds);
    var all := CollectMatches(cond, cache);
    var results := SortByKey(all);
    if results == [] {
      return Err(NoResults);
    }
    var nameLen, verLen := MaxNameLen(results), MaxVerLen(results);
    var format := FormatFor(config, FormatKey, DefaultFormat);
    var vformat := FormatFor(config, VirtualFormatKey, DefaultVirtualFormat);
    var lines := RenderLines(results, format, vformat, nameLen, verLen);
    assert lines == Listing(results, config);
    return Ok(lines);
  }

  // ---------------------------------------------------------------------------
  // Tokens that compile to no clause at all

  /**
   * The code as written: `make_search` returns `lambda pkg: []` for a token
   * with no clause, which has no `match` method, so the search raises
   * `AttributeError` on the first package of a non-empty cache.
   */
  function SearchAsWritten(tokens: seq<string>, cache: seq<Package>, config: map<Target, Template>, defaultArch: string)
    : Result<seq<string>, SearchError>
  {
    match CompileAll(tokens, defaultArch)
    case Err(e) => Err(BadPattern(e))
    case Ok(ms) =>
      if ms != [] && Nothing in ms && cache != [] then Err(NoMatchAttribute)
      else SearchSpec(tokens, cache, config, defaultArch)
  }

  /** A fold of matchers of nothing matches nothing. */
  lemma {:induction false} NothingChainMatchesNothing(ms: seq<Matcher>, p: Package, found: seq<Entry>)
    requires |ms| > 0 && forall i :: 0 <= i < |ms| ==> ms[i] == Nothing
    requires found == Match(Chain(OrOp, ms), p)
    ensures found == []
    decreases |ms|
  {
    if |ms| > 1 {
      var rest := Match(Chain(OrOp, ms[1..]), p);
      NothingChainMatchesNothing(ms[1..], p, rest);
      assert Chain(OrOp, ms) == Or(ms[0], Chain(OrOp, ms[1..]));
      var none := Match(ms[0], p);
      OrStep(ms[0], Chain(OrOp, ms[1..]), p, none, rest, found);
      NoKeys(none);
      NoKeys(rest);
      NoKeys(found);
    }
  }


  /**
   * Tokens that all compile to no clause: as written the search raises on any
   * non-empty cache; corrected, it finds nothing and says so.
   */
  lemma NothingTokensFindNothing(tokens: seq<string>, cache: seq<Package>, config: map<Target, Template>, defaultArch: string)
    requires tokens != [] && forall i :: 0 <= i < |tokens| ==> CompileToken(tokens[i], defaultArch) == Ok(Nothing)
    ensures cache != [] ==> SearchAsWritten(tokens, cache, config, defaultArch) == Err(NoMatchAttribute)
    ensures SearchSpec(tokens, cache, config, defaultArch) == Err(NoResults)
  {
    CompileAllSpec(tokens, defaultArch);
    var ms := CompileAll(tokens, defaultArch).value;
    assert ms[0] == Nothing;
    var m := Chain(OrOp, ms);
    forall i | 0 <= i < |cache| ensures PerPackage(m, cache)[i] == [] {
      NothingChainMatchesNothing(ms, cache[i], Match(m, cache[i]));
    }
    ResultsEmpty(m, cache);
    SearchSpecOfQuery(tokens, cache, config, defaultArch, ms);
  }

  /** `tap ""` and `tap ~aany` raise as written on any cache with a package, where nothing was found. */
  lemma EmptyTokenCrashesAsWritten(p: Package, config: map<Target, Template>, defaultArch: string)
    ensures SearchAsWritten([""], [p], config, defaultArch) == Err(NoMatchAttribute)
    ensures SearchAsWritten(["~aany"], [p], config, defaultArch) == Err(NoMatchAttribute)
    ensures SearchSpec([""], [p], config, defaultArch) == Err(NoResults)
    ensures SearchSpec(["~aany"], [p], config, defaultArch) == Err(NoResults)
  {
    EmptyTokenCompilesToNothing(defaultArch);
    NothingTokensFindNothing([""], [p], config, defaultArch);
    AnyArchCompilesToNothing(defaultArch);
    NothingTokensFindNothing(["~aany"], [p], config, defaultArch);
  }

  /** The matcher of no clause contributes no key. */
  lemma NothingHasNoKeys(p: Package, none: seq<Entry>)
    requires none == Match(Nothing, p)
    ensures KeySet(none) == {}
  {
    NoKeys(none);
  }

  // A separate step so that the callers' proofs stay cheap for the solver.
  lemma UnionWithNone(none: set<Key>, keys: set<Key>)
    requires none == {}
    ensures none + keys == keys && keys + none == keys
  {
  }

  /** Corrected: a token with no clause before others in an `OrCombiner` adds and removes nothing. */
  lemma NothingBeforeAddsNothing(m: Matcher, p: Package, found: seq<Entry>, combined: seq<Entry>)
    requires found == Match(m, p) && combined == Match(Or(Nothing, m), p)
    ensures KeySet(combined) == KeySet(found) && StrictlySorted(combined)
  {
    var none := Match(Nothing, p);
    NothingHasNoKeys(p, none);
    OrStep(Nothing, m, p, none, found, combined);
    UnionWithNone(KeySet(none), KeySet(found));
  }

  /** ... and so does one after them. */
  lemma NothingAfterAddsNothing(m: Matcher, p: Package, found: seq<Entry>, combined: seq<Entry>)
    requires found == Match(m, p) && combined == Match(Or(m, Nothing), p)
    ensures KeySet(combined) == KeySet(found) && StrictlySorted(combined)
  {
    var none := Match(Nothing, p);
    NothingHasNoKeys(p, none);
    OrStep(m, Nothing, p, found, none, combined);
    UnionWithNone(KeySet(none), KeySet(found));
  }


}
