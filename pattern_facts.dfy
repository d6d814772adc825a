/**
 * What `make_search` and the token fold of `search` promise: where a clause's
 * text ends, which operators take none, when the default-architecture clause
 * is added, which tokens fail, and what the folded chains mean.
 */
module PatternFacts {
  import opened Wrappers
  import opened Text
  import opened Packages
  import opened Merge
  import opened Matchers
  import opened MatcherFacts
  import opened Pattern

  lemma SplitAtTilde(op: char, text: string, more: string)
    requires TakesText(op) && '~' !in text
    requires more == "" || more[0] == '~'
    ensures SplitText(op, text + more) == (text, more)
  {
    FindPastPrefix(text, more, '~');
    if more == "" {
      assert text + more == text;
    }
    assert (text + more)[..|text|] == text && (text + more)[|text|..] == more;
  }

  /** The text of an `~n`, `~d` or `~a` clause runs up to, not including, the next `~`. */
  lemma ClauseTextRunsToTilde(op: char, text: string, more: string, defaultArch: string)
    requires TakesText(op) && '~' !in text
    requires more == "" || more[0] == '~'
    ensures NextClause(['~', op] + text + more, defaultArch) == ClauseFor(op, text, more, defaultArch)
  {
    var arg := ['~', op] + text + more;
    assert arg[0] == '~' && arg[1] == op && arg[2..] == text + more;
    SplitAtTilde(op, text, more);
  }

  /** Bare text is an `~n` clause running up to the next `~`. */
  lemma BareTextRunsToTilde(text: string, more: string, defaultArch: string)
    requires text != "" && '~' !in text
    requires more == "" || more[0] == '~'
    ensures NextClause(text + more, defaultArch) == Ok(Step(Some(MatchName(Substring(text))), false, more))
  {
    assert (text + more)[0] == text[0];
    assert text[0] in text;
    SplitAtTilde('n', text, more);
  }

  /** `~i` and `~p` take no text: whatever follows is read again as further clauses. */
  lemma NoTextOperators(op: char, rest: string, defaultArch: string)
    requires op == 'i' || op == 'p'
    ensures Clauses(['~', op] + rest, defaultArch)
         == Extend([if op == 'i' then Installed else Nonvirtual], false, Clauses(rest, defaultArch))
  {
    var arg := ['~', op] + rest;
    assert arg[2..] == rest;
    assert NextClause(arg, defaultArch) == Ok(Step(Some(if op == 'i' then Installed else Nonvirtual), false, rest));
    ExtendStep([], false, arg, defaultArch);
    ExtendNothing(Clauses(arg, defaultArch));
    assert [] + [if op == 'i' then Installed else Nonvirtual] == [if op == 'i' then Installed else Nonvirtual];
  }

  /** Appending clauses after a clause's text leaves the text as it was. */
  lemma SplitTextAppend(op: char, rem: string, post: string)
    requires post == "" || post[0] == '~'
    ensures SplitText(op, rem + post) == (SplitText(op, rem).0, SplitText(op, rem).1 + post)
  {
    if TakesText(op) {
      if '~' in rem {
        FindInPrefix(rem, post, '~');
        var k := Find(rem, '~');
        assert (rem + post)[..k] == rem[..k] && (rem + post)[k..] == rem[k..] + post;
      } else {
        SplitAtTilde(op, rem, post);
        assert "" + post == post;
      }
    }
  }

  /** What follows a clause does not change the clause. */
  lemma ClauseForRest(op: char, text: string, rest: string, rest2: string, defaultArch: string)
    requires ClauseFor(op, text, rest, defaultArch).Ok?
    ensures ClauseFor(op, text, rest2, defaultArch) == Ok(ClauseFor(op, text, rest, defaultArch).value.(rest := rest2))
  {
  }

  /** A clause that reads successfully still reads the same with more clauses after it. */
  lemma NextClauseAppend(arg: string, post: string, defaultArch: string)
    requires arg != "" && NextClause(arg, defaultArch).Ok?
    requires post == "" || post[0] == '~'
    ensures NextClause(arg + post, defaultArch)
         == Ok(NextClause(arg, defaultArch).value.(rest := NextClause(arg, defaultArch).value.rest + post))
  {
    var whole := arg + post;
    assert whole[0] == arg[0];
    var op := if arg[0] == '~' then arg[1] else 'n';
    var rem := if arg[0] == '~' then arg[2..] else arg;
    if arg[0] == '~' {
      assert whole[1] == op && whole[2..] == rem + post;
    }
    var split := SplitText(op, rem);
    SplitTextAppend(op, rem, post);
    assert NextClause(arg, defaultArch) == ClauseFor(op, split.0, split.1, defaultArch);
    assert NextClause(whole, defaultArch) == ClauseFor(op, split.0, split.1 + post, defaultArch);
    ClauseForRest(op, split.0, split.1, split.1 + post, defaultArch);
  }

  /** Reading a token whose first clause reads successfully: that clause, then the clauses of the rest. */
  lemma ClausesUnfold(arg: string, defaultArch: string)
    requires arg != "" && NextClause(arg, defaultArch).Ok?
    ensures var st := NextClause(arg, defaultArch).value;
      Clauses(arg, defaultArch) == Extend(OptionToSeq(st.clause), st.isArch, Clauses(st.rest, defaultArch))
  {
    ExtendStep([], false, arg, defaultArch);
    ExtendNothing(Clauses(arg, defaultArch));
    assert [] + OptionToSeq(NextClause(arg, defaultArch).value.clause) == OptionToSeq(NextClause(arg, defaultArch).value.clause);
  }

  lemma ExtendTwice(a: seq<Matcher>, ha: bool, b: seq<Matcher>, hb: bool, r: Result<Conds, ParseError>)
    ensures Extend(a, ha, Extend(b, hb, r)) == Extend(a + b, ha || hb, r)
  {
    if r.Ok? {
      assert a + (b + r.value.conds) == a + b + r.value.conds;
    }
  }

  /**
   * Reading clauses composes at a `~`: a well-formed front part contributes its
   * clauses, and the clauses after it read as if they stood alone.
   */
  lemma {:induction false} ClausesAppend(pre: string, post: string, defaultArch: string)
    requires Clauses(pre, defaultArch).Ok?
    requires post == "" || post[0] == '~'
    ensures Clauses(pre + post, defaultArch)
         == Extend(Clauses(pre, defaultArch).value.conds, Clauses(pre, defaultArch).value.hasArch, Clauses(post, defaultArch))
    decreases |pre|
  {
    if pre == "" {
      assert pre + post == post;
      ExtendNothing(Clauses(post, defaultArch));
    } else {
      var st := NextClause(pre, defaultArch).value;
      var c := Clauses(st.rest, defaultArch).value;
      ClausesAppend(st.rest, post, defaultArch);
      NextClauseAppend(pre, post, defaultArch);
      ClausesUnfold(pre + post, defaultArch);
      ExtendTwice(OptionToSeq(st.clause), st.isArch, c.conds, c.hasArch, Clauses(post, defaultArch));
    }
  }

  /** An operator character outside `n`, `d`, `i`, `a`, `p` fails the token wherever it occurs after well-formed clauses. */
  lemma UnknownOperatorFails(pre: string, op: char, rest: string, defaultArch: string)
    requires Clauses(pre, defaultArch).Ok?
    requires op !in "ndiap"
    ensures CompileToken(pre + ['~', op] + rest, defaultArch) == Err(UnknownOperator(op))
  {
    var arg := ['~', op] + rest;
    assert arg[2..] == rest;
    assert NextClause(arg, defaultArch) == Err(UnknownOperator(op));
    assert pre + ['~', op] + rest == pre + arg;
    ClausesAppend(pre, arg, defaultArch);
  }

  /** A `~` with nothing after it fails the token after any well-formed clauses (`arg[1]` raises). */
  lemma TrailingTildeFails(pre: string, defaultArch: string)
    requires Clauses(pre, defaultArch).Ok?
    ensures CompileToken(pre + "~", defaultArch) == Err(MissingOperator)
  {
    assert Clauses("~", defaultArch) == Err(MissingOperator);
    ClausesAppend(pre, "~", defaultArch);
  }

  /** The empty token has no clauses and compiles to the matcher that yields nothing. */
  lemma EmptyTokenCompilesToNothing(defaultArch: string)
    ensures CompileToken("", defaultArch) == Ok(Nothing)
  {
  }

  /** A token of only `~aany` reads one clause and adds none, so it compiles to the matcher of nothing. */
  lemma AnyArchCompilesToNothing(defaultArch: string)
    ensures CompileToken("~aany", defaultArch) == Ok(Nothing)
  {
    ArchClauseAlone("any", defaultArch);
    assert "~aany" == ['~', 'a'] + "any";
  }

  /** Bare text with no `~` is `MatchName(Contains(text))` ANDed with the default `MatchArch`. */
  lemma BareTextCompiles(text: string, defaultArch: string)
    requires text != "" && '~' !in text
    ensures CompileToken(text, defaultArch)
         == Ok(And(MatchName(Substring(text)), MatchArch([defaultArch, "all"])))
  {
    BareTextRunsToTilde(text, "", defaultArch);
    assert text + "" == text;
    var name := MatchName(Substring(text));
    assert Clauses(text, defaultArch) == Ok(Conds([name] + [], false));
    assert [name] + [] + [MatchArch(ArchList("", defaultArch))] == [name, MatchArch([defaultArch, "all"])];
    assert Chain(AndOp, [name, MatchArch([defaultArch, "all"])]) == And(name, MatchArch([defaultArch, "all"]));
  }

  /** The clauses of a trailing `~a` clause: none for `any`, else one `MatchArch`; either way it counts as `~a`. */
  lemma ArchClauseAlone(arch: string, defaultArch: string)
    requires '~' !in arch
    ensures Clauses(['~', 'a'] + arch, defaultArch)
         == Ok(Conds(if arch == "any" then [] else [MatchArch(ArchList(arch, defaultArch))], true))
  {
    assert ['~', 'a'] + arch + "" == ['~', 'a'] + arch;
    ClauseTextRunsToTilde('a', arch, "", defaultArch);
    var step := NextClause(['~', 'a'] + arch, defaultArch);
    assert step.Ok? && step.value.rest == "";
    var archConds := if arch == "any" then [] else [MatchArch(ArchList(arch, defaultArch))];
    assert OptionToSeq(step.value.clause) + [] == archConds;
  }

  /**
   * Bare text then an `~a` clause: `~aany` leaves the name clause alone, `~a`
   * restricts it to the default architecture and `all`, `~aX` to `X`.
   */
  lemma TextThenArchClause(text: string, arch: string, defaultArch: string)
    requires text != "" && '~' !in text && '~' !in arch
    ensures CompileToken(text + "~a" + arch, defaultArch)
         == Ok(if arch == "any" then MatchName(Substring(text))
               else And(MatchName(Substring(text)), MatchArch(ArchList(arch, defaultArch))))
  {
    var archClause := ['~', 'a'] + arch;
    assert "~a" + arch == archClause && archClause[0] == '~';
    assert text + "~a" + arch == text + archClause;
    var name := MatchName(Substring(text));
    BareTextRunsToTilde(text, archClause, defaultArch);
    ArchClauseAlone(arch, defaultArch);
    var archConds := if arch == "any" then [] else [MatchArch(ArchList(arch, defaultArch))];
    ghost var c := Clauses(text + archClause, defaultArch);
    assert c == Ok(Conds([name] + archConds, true));
    if arch == "any" {
      assert [name] + archConds == [name];
    } else {
      var cs := [name, MatchArch(ArchList(arch, defaultArch))];
      assert [name] + archConds == cs;
      assert Assemble(Conds(cs, true), defaultArch) == Chain(AndOp, cs);
      assert cs[1..] == [MatchArch(ArchList(arch, defaultArch))];
      assert Chain(AndOp, cs) == And(name, MatchArch(ArchList(arch, defaultArch)));
    }
  }

  /** What an `~a` clause contributes: no clause for `any`, else one `MatchArch`. */
  function ArchConds(arch: string, defaultArch: string): seq<Matcher> {
    if arch == "any" then [] else [MatchArch(ArchList(arch, defaultArch))]
  }

  lemma ArchClauseThen(arch: string, post: string, defaultArch: string)
    requires '~' !in arch && (post == "" || post[0] == '~')
    ensures Clauses(['~', 'a'] + arch + post, defaultArch) == Extend(ArchConds(arch, defaultArch), true, Clauses(post, defaultArch))
  {
    ArchClauseAlone(arch, defaultArch);
    ClausesAppend(['~', 'a'] + arch, post, defaultArch);
  }

  /** The clauses around an `~a` clause, and the clause itself, in their order; the token counts as having `~a`. */
  lemma ArchClauseInPlace(pre: string, arch: string, post: string, defaultArch: string)
    requires Clauses(pre, defaultArch).Ok? && Clauses(post, defaultArch).Ok?
    requires '~' !in arch && (post == "" || post[0] == '~')
    ensures Clauses(pre + "~a" + arch + post, defaultArch)
         == Ok(Conds(Clauses(pre, defaultArch).value.conds + ArchConds(arch, defaultArch) + Clauses(post, defaultArch).value.conds, true))
  {
    var tail := ['~', 'a'] + arch + post;
    ArchTokenSplit(pre, arch, post);
    ArchClauseThen(arch, post, defaultArch);
    ClausesAppend(pre, tail, defaultArch);
    var c := Clauses(pre, defaultArch).value;
    ExtendTwice(c.conds, c.hasArch, ArchConds(arch, defaultArch), true, Clauses(post, defaultArch));
  }

  // A separate step so that the callers' proofs stay cheap for the solver.
  lemma ArchTokenSplit(pre: string, arch: string, post: string)
    ensures pre + "~a" + arch + post == pre + (['~', 'a'] + arch + post)
  {
  }

  /**
   * An `~a` clause anywhere among well-formed clauses contributes its own
   * restriction (none for `~aany`) in its place and suppresses the
   * default-architecture clause: the token is the chain of exactly its clauses.
   */
  lemma ArchClauseReplacesDefault(pre: string, arch: string, post: string, defaultArch: string)
    requires Clauses(pre, defaultArch).Ok? && Clauses(post, defaultArch).Ok?
    requires '~' !in arch && (post == "" || post[0] == '~')
    ensures var conds := Clauses(pre, defaultArch).value.conds + ArchConds(arch, defaultArch) + Clauses(post, defaultArch).value.conds;
      CompileToken(pre + "~a" + arch + post, defaultArch) == Ok(if conds == [] then Nothing else Chain(AndOp, conds))
  {
    ArchClauseInPlace(pre, arch, post, defaultArch);
  }

  /** `~ifoo` is `Installed` AND `MatchName("foo")` AND the default `MatchArch`. */
  lemma InstalledThenName(text: string, defaultArch: string)
    requires text != "" && '~' !in text
    ensures CompileToken("~i" + text, defaultArch)
         == Ok(And(Installed, And(MatchName(Substring(text)), MatchArch([defaultArch, "all"]))))
  {
    assert "~i" + text == ['~', 'i'] + text;
    var name := MatchName(Substring(text));
    NoTextOperators('i', text, defaultArch);
    BareTextRunsToTilde(text, "", defaultArch);
    assert text + "" == text;
    assert Clauses(text, defaultArch) == Ok(Conds([name] + [], false));
    assert Clauses("~i" + text, defaultArch) == Ok(Conds([Installed] + ([name] + []), false || false));
    var conds := [Installed] + ([name] + []) + [MatchArch(ArchList("", defaultArch))];
    assert conds == [Installed, name, MatchArch([defaultArch, "all"])];
    assert conds[1..] == [name, MatchArch([defaultArch, "all"])];
    assert Chain(AndOp, conds[1..]) == And(name, MatchArch([defaultArch, "all"]));
    assert Chain(AndOp, conds) == And(Installed, And(name, MatchArch([defaultArch, "all"])));
  }

  // ---------------------------------------------------------------------------
  // What the folds mean

  /** Filtering through a list of matchers, first to last. */
  function FilterThrough(ms: seq<Matcher>, xs: seq<Entry>): seq<Entry> {
    if ms == [] then xs else FilterThrough(ms[1..], Filter(ms[0], xs))
  }

  /** The right fold of `AndCombiner` applies its clauses' filters from left to right. */
  lemma {:induction false} AndChainFiltersInOrder(cs: seq<Matcher>, xs: seq<Entry>)
    requires |cs| > 0
    ensures Filter(Chain(AndOp, cs), xs) == FilterThrough(cs[1..], Filter(cs[0], xs))
    decreases |cs|
  {
    if |cs| > 1 {
      AndIsComposition(cs[0], Chain(AndOp, cs[1..]), Package("", [], None, None, false, false, false, false, 0, 0), xs);
      AndChainFiltersInOrder(cs[1..], Filter(cs[0], xs));
      assert cs[1..][1..] == cs[2..];
    }
  }

  /** ... and its `match` is the first clause's `match` narrowed by the others' filters, in order. */
  lemma AndChainMatchesInOrder(cs: seq<Matcher>, p: Package)
    requires |cs| > 0
    ensures Match(Chain(AndOp, cs), p) == FilterThrough(cs[1..], Match(cs[0], p))
  {
    if |cs| > 1 {
      AndIsComposition(cs[0], Chain(AndOp, cs[1..]), p, []);
      AndChainFiltersInOrder(cs[1..], Match(cs[0], p));
    }
  }

  /** The keys the matchers of `ms` yield for a package, together. */
  function UnionKeys(ms: seq<Matcher>, p: Package): set<Key> {
    if ms == [] then {} else KeySet(Match(ms[0], p)) + UnionKeys(ms[1..], p)
  }

  /**
   * One `OrCombiner`: the keys of both sides, each once, in order. The results
   * are named by parameters, which keeps the proof from unfolding `Match` twice.
   */
  lemma OrStep(l: Matcher, r: Matcher, p: Package, left: seq<Entry>, right: seq<Entry>, both: seq<Entry>)
    requires left == Match(l, p) && right == Match(r, p) && both == Match(Or(l, r), p)
    ensures KeySet(both) == KeySet(left) + KeySet(right)
    ensures StrictlySorted(both)
  {
  }

  /**
   * The right fold of `OrCombiner` over the tokens' matchers yields exactly the
   * keys some token's matcher yields, each once, in order.
   */
  lemma {:induction false} OrChainIsUnion(ms: seq<Matcher>, p: Package, found: seq<Entry>)
    requires |ms| > 0 && found == Match(Chain(OrOp, ms), p)
    ensures KeySet(found) == UnionKeys(ms, p)
    ensures |ms| > 1 ==> StrictlySorted(found)
    decreases |ms|
  {
    if |ms| > 1 {
      var rest := Match(Chain(OrOp, ms[1..]), p);
      OrChainIsUnion(ms[1..], p, rest);
      assert Chain(OrOp, ms) == Or(ms[0], Chain(OrOp, ms[1..]));
      OrStep(ms[0], Chain(OrOp, ms[1..]), p, Match(ms[0], p), rest, found);
      assert UnionKeys(ms, p) == KeySet(Match(ms[0], p)) + UnionKeys(ms[1..], p);
    } else {
      assert Chain(OrOp, ms) == ms[0];
      assert UnionKeys(ms[1..], p) == {};
    }
  }
}
