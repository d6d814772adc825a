/**
 * `make_search` of tap.py: one pattern token, read left to right, becomes a
 * list of clause matchers (`~n`, `~d`, `~i`, `~a`, `~p`, or bare text), gets a
 * default-architecture clause unless it had an `~a` clause, and is folded
 * into a right-leaning chain of `AndCombiner`s.
 */
module Pattern {
  import opened Wrappers
  import opened Text
  import opened Matchers

  /** Why a token does not compile: `~` ends the token (Python's IndexError) or names no operator (KeyError). */
  datatype ParseError = MissingOperator | UnknownOperator(op: char)

  datatype Connective = AndOp | OrOp

  function Join(op: Connective, l: Matcher, r: Matcher): Matcher {
    match op
    case AndOp => And(l, r)
    case OrOp => Or(l, r)
  }

  /** The right fold `Join(cs[0], Join(cs[1], ... cs[n-1]))`; a single matcher stands for itself. */
  function Chain(op: Connective, cs: seq<Matcher>): Matcher
    requires |cs| > 0
  {
    if |cs| == 1 then cs[0] else Join(op, cs[0], Chain(op, cs[1..]))
  }

  /** `MatchArch(arch).arch`: an empty argument means the configured architecture and `all`. */
  function ArchList(arch: string, defaultArch: string): seq<string> {
    if arch == "" then [defaultArch, "all"] else [arch]
  }

  /** The operator table: the matcher each operator character builds from its clause text. */
  function Atom(op: char, text: string, defaultArch: string): Option<Matcher> {
    match op
    case 'n' => Some(MatchName(Substring(text)))
    case 'd' => Some(MatchDesc(SubstringNoCase(text)))
    case 'i' => Some(Installed)
    case 'a' => Some(MatchArch(ArchList(text, defaultArch)))
    case 'p' => Some(Nonvirtual)
    case _ => None
  }

  /** One clause read off the front of a token: its matcher (none for `~aany`), whether it was `~a`, and what is left. */
  datatype Step = Step(clause: Option<Matcher>, isArch: bool, rest: string)

  /** The operators whose clause text runs up to the next `~`; the others take no text. */
  predicate TakesText(op: char) {
    op in "nda"
  }

  /** Lines 226-233: split a clause's text from the rest of the token. */
  function SplitText(op: char, rem: string): (r: (string, string))
    ensures |r.1| <= |rem|
    ensures op !in "nda" ==> r == ("", rem)
  {
    if !TakesText(op) then ("", rem)
    else
      var nextop := Find(rem, '~');
      if nextop != -1 then (rem[..nextop], rem[nextop..]) else (rem, "")
  }

  /** The clause an operator and its text make, or the operator's error. */
  function ClauseFor(op: char, text: string, rest: string, defaultArch: string): Result<Step, ParseError> {
    if op == 'a' && text == "any" then Ok(Step(None, true, rest))
    else match Atom(op, text, defaultArch)
      case None => Err(UnknownOperator(op))
      case Some(m) => Ok(Step(Some(m), op == 'a', rest))
  }

  /** One turn of `make_search`'s `while arg` loop. */
  function NextClause(arg: string, defaultArch: string): (r: Result<Step, ParseError>)
    requires arg != ""
    ensures r.Ok? ==> |r.value.rest| < |arg|
  {
    if arg[0] == '~' && |arg| < 2 then Err(MissingOperator)
    else
      var op := if arg[0] == '~' then arg[1] else 'n';
      var rem := if arg[0] == '~' then arg[2..] else arg;
      var split := SplitText(op, rem);
      assert arg[0] != '~' ==> Find(arg, '~') != 0;
      ClauseFor(op, split.0, split.1, defaultArch)
  }

  /** The clauses of a token (`conds`) and whether one was `~a` (`has_arch`). */
  datatype Conds = Conds(conds: seq<Matcher>, hasArch: bool)

  function OptionToSeq(o: Option<Matcher>): seq<Matcher> {
    if o.Some? then [o.value] else []
  }

  /** All clauses of a token, or the first error met reading it from the left. */
  function Clauses(arg: string, defaultArch: string): Result<Conds, ParseError>
    decreases |arg|
  {
    if arg == "" then Ok(Conds([], false))
    else match NextClause(arg, defaultArch)
      case Err(e) => Err(e)
      case Ok(st) =>
        match Clauses(st.rest, defaultArch)
        case Err(e) => Err(e)
        case Ok(c) => Ok(Conds(OptionToSeq(st.clause) + c.conds, st.isArch || c.hasArch))
  }

  /** Clauses already read, followed by those still to read. */
  function Extend(conds: seq<Matcher>, hasArch: bool, r: Result<Conds, ParseError>): Result<Conds, ParseError> {
    match r
    case Err(e) => Err(e)
    case Ok(c) => Ok(Conds(conds + c.conds, hasArch || c.hasArch))
  }

  /** The default-architecture clause is added to a non-empty clause list without `~a`; then the list is folded. */
  function Assemble(c: Conds, defaultArch: string): Matcher {
    var conds := if c.conds != [] && !c.hasArch then c.conds + [MatchArch(ArchList("", defaultArch))] else c.conds;
    if conds == [] then Nothing else Chain(AndOp, conds)
  }

  /** What `make_search(arg)` returns or raises. */
  function CompileToken(arg: string, defaultArch: string): Result<Matcher, ParseError> {
    match Clauses(arg, defaultArch)
    case Err(e) => Err(e)
    case Ok(c) => Ok(Assemble(c, defaultArch))
  }

  lemma ExtendNothing(r: Result<Conds, ParseError>)
    ensures Extend([], false, r) == r
  {
    if r.Ok? {
      assert [] + r.value.conds == r.value.conds;
    }
  }

  /** Reading one clause moves it from the clauses still to read to those already read. */
  lemma ExtendStep(conds: seq<Matcher>, hasArch: bool, arg: string, defaultArch: string)
    requires arg != ""
    ensures NextClause(arg, defaultArch).Err? ==>
      Extend(conds, hasArch, Clauses(arg, defaultArch)) == Err(NextClause(arg, defaultArch).error)
    ensures NextClause(arg, defaultArch).Ok? ==>
      var st := NextClause(arg, defaultArch).value;
      Extend(conds, hasArch, Clauses(arg, defaultArch))
        == Extend(conds + OptionToSeq(st.clause), hasArch || st.isArch, Clauses(st.rest, defaultArch))
  {
    if NextClause(arg, defaultArch).Ok? {
      var st := NextClause(arg, defaultArch).value;
      match Clauses(st.rest, defaultArch)
      case Err(e) =>
      case Ok(c) =>
        assert conds + (OptionToSeq(st.clause) + c.conds) == conds + OptionToSeq(st.clause) + c.conds;
    }
  }

  /** The fold loops `cond, conds = conds[-1], conds[:-1]; while conds: cond = Combiner(conds.pop(), cond)`. */
  method FoldRight(conds: seq<Matcher>, op: Connective) returns (cond: Matcher)
    requires |conds| > 0
    ensures cond == Chain(op, conds)
  {
    cond := conds[|conds| - 1];
    var rest := conds[..|conds| - 1];
    while rest != []
      invariant |rest| < |conds| && rest == conds[..|rest|]
      invariant cond == Chain(op, conds[|rest|..])
      decreases |rest|
    {
      var k := |rest|;
      assert conds[k - 1..][1..] == conds[k..];
      cond := Join(op, rest[k - 1], cond);
      rest := rest[..k - 1];
    }
    assert conds[0..] == conds;
  }

  /** `make_search(arg)`: read clauses off the token until it is used up, then assemble them. */
  method MakeSearch(arg0: string, defaultArch: string) returns (r: Result<Matcher, ParseError>)
    ensures r == CompileToken(arg0, defaultArch)
  {
    var arg := arg0;
    var conds: seq<Matcher> := [];
    var hasArch := false;
    ExtendNothing(Clauses(arg0, defaultArch));
    while arg != ""
      invariant Clauses(arg0, defaultArch) == Extend(conds, hasArch, Clauses(arg, defaultArch))
      decreases |arg|
    {
      var op: char;
      var rem: string;
      if arg[0] == '~' {
        if |arg| < 2 {
          ExtendStep(conds, hasArch, arg, defaultArch);
          return Err(MissingOperator);
        }
        op, rem := arg[1], arg[2..];
      } else {
        op, rem := 'n', arg;
      }
      ghost var whole, rem0 := arg, rem;
      if TakesText(op) {
        var nextop := Find(rem, '~');
        if nextop != -1 {
          rem, arg := rem[..nextop], rem[nextop..];
        } else {
          arg := "";
        }
      } else {
        rem, arg := "", rem;
      }
      assert SplitText(op, rem0) == (rem, arg);
      ghost var conds0, hasArch0 := conds, hasArch;
      assert NextClause(whole, defaultArch) == ClauseFor(op, rem, arg, defaultArch);
      if op == 'a' {
        hasArch := true;
        if rem == "any" {
          ExtendStep(conds0, hasArch0, whole, defaultArch);
          assert conds == conds0 + OptionToSeq(None);
          continue;
        }
      }
      var atom := Atom(op, rem, defaultArch);
      if atom.None? {
        ExtendStep(conds0, hasArch0, whole, defaultArch);
        return Err(UnknownOperator(op));
      }
      ExtendStep(conds0, hasArch0, whole, defaultArch);
      conds := conds + [atom.value];
    }
    assert conds + [] == conds;
    assert Clauses(arg0, defaultArch) == Ok(Conds(conds, hasArch));
    var cond := AssembleClauses(conds, hasArch, defaultArch);
    return Ok(cond);
  }

  /** The tail of `make_search`: add the default-architecture clause if needed, then fold with `AndCombiner`. */
  method AssembleClauses(conds0: seq<Matcher>, hasArch: bool, defaultArch: string) returns (cond: Matcher)
    ensures cond == Assemble(Conds(conds0, hasArch), defaultArch)
  {
    var conds := conds0;
    if conds != [] && !hasArch {
      conds := conds + [MatchArch(ArchList("", defaultArch))];
    }
    if conds == [] {
      return Nothing;
    }
    cond := FoldRight(conds, AndOp);
  }
}
