# tap search, modelled in Dafny

`tap` is a one-file query tool over the APT package cache (`tap.py`). Its
`search` command reads pattern tokens such as `vim`, `~dtext editor`,
`~ifoo~aamd64` or `~p`. It compiles each token into a tree of matchers and
joins the tokens' trees with `OrCombiner`. It runs the query over every
package of the cache and sorts the `(displayed name, version)` pairs by
`namever_key`. It then classifies each pair (state, automatic, select and
upgrade characters) and prints one line per pair through a format. The
format is built in, or given with `--format` / `--virtual-format` in the
`%[|]c` placeholder language of `search_format`.

This project models that core:

- `packages.dfy`: the package and version records, `namever_key`, and
  Python's lexicographic string and tuple order, proved to be a total order.
- `merge.dfy`: `sorted(..., key=namever_key)` as an insertion sort, the
  adjacent-duplicate filter, and `OrCombiner._combine`.
- `text.dfy`: `Contains`, `ContainsNoCase` (with ASCII lower-casing) and
  `str.find` for one character.
- `matchers.dfy`: the matcher tree (`MatchName`, `MatchDesc`, `Installed`,
  `Nonvirtual`, `MatchArch`, `AndCombiner`, `OrCombiner`) with the
  functions `Match` and `Filter`. It also has the loops of the leaf `match`
  methods, as methods proved equal to `Match`.
- `matcher_facts.dfy`: what each `match` and `filter` yields, how
  `AndCombiner` narrows, and that `match` is `filter` applied to every pair
  a package can yield.
- `pattern.dfy`, `pattern_facts.dfy`: `make_search` as a clause reader
  (`Clauses`, `CompileToken`) and as the `while arg` loop proved equal to
  it. They also cover the right folds with `AndCombiner` and `OrCombiner`,
  and the properties of clause splitting, operators, the default
  architecture and the folds.
- `classify.dfy`: the classification block.
- `template.dfy`: `search_format` as a compiler from format arguments to
  segment templates, and as the imperative option handler on a
  configuration object. It also has the built-in formats, the round trip
  from a template back to its format argument, and rendering with
  left-justified columns.
- `search.dfy`: the whole `search` command, as a specification function and
  as the method with its loops. It covers column widths, line layout, and
  the crash on a token with no clause.

The package cache and the configured architecture are parameters. Python
exceptions become `Result` errors, and printed lines become returned strings.

## Model

| member | source | states |
|---|---|---|
| Text.ContainsOccurs | tap.py:75-79 | `Contains(s)(t)` holds exactly when `s` occurs as a contiguous run somewhere in `t` |
| Text.EmptyAlwaysContained | tap.py:78-79 | the empty search text is contained in every target, so a clause with empty text rejects nothing |
| Text.Lower | tap.py:85-87 | lower-casing keeps the length, lowers each character, and leaves no upper-case letter |
| Text.LowerIdempotent | tap.py:85-87 | lower-casing a lower-cased string changes nothing |
| Text.NoCaseIgnoresTargetCase | tap.py:83-87 | `ContainsNoCase` answers the same when either side is lower-cased beforehand |
| Text.Find | tap.py:227 | `find` returns -1 exactly when the character is absent, else an index holding it with no earlier occurrence |
| Text.FindPastPrefix | tap.py:389-393 | searching past a prefix without the character finds the rest's first occurrence, shifted by the prefix length |
| Packages.StrLeReflexive | tap.py:29-30 | every string is `<=` itself |
| Packages.StrLeTotal | tap.py:29-30 | any two strings are comparable |
| Packages.StrLeAntisymmetric | tap.py:29-30 | strings `<=` each other both ways are equal |
| Packages.StrLeTransitive | tap.py:29-30 | string `<=` is transitive |
| Packages.KeyLeTotal | tap.py:29-30 | any two `namever_key` tuples are comparable |
| Packages.KeyLeAntisymmetric | tap.py:29-30 | keys `<=` each other both ways are equal |
| Packages.KeyLeTransitive | tap.py:29-30 | key `<=` is transitive |
| Packages.KeyLtTransitive | tap.py:29-30 | strict key order is transitive |
| Packages.NotKeyLe | tap.py:29-30 | a key not `<=` another is strictly above it |
| Merge.Insert | tap.py:56 | inserting into a sorted list gives a sorted list holding the old entries plus the new one |
| Merge.SortByKey | tap.py:56 | `sorted(key=namever_key)` returns its input reordered (same multiset) into non-decreasing key order |
| Merge.SameMembers | tap.py:56 | a reordering keeps the same entries and the same keys |
| Merge.KeptAfterSorted | tap.py:58-60 | dropping each entry whose key equals its predecessor's leaves a sorted list strictly increasing and above the previous key |
| Merge.KeptAfterKeys | tap.py:58-60 | the same filter keeps every key of the list except the previous one |
| Merge.KeptAfterRunStarts | tap.py:58-60 | the same filter keeps every entry whose key differs from its predecessor's (or from the previous key, for the first) |
| Merge.DedupSpec | tap.py:58-60 | deduplicating a sorted list gives a strictly increasing list with the same key set and only original entries, and every entry that starts a run of equal keys is kept, so the kept entry of each key is the first of its run |
| Merge.Combine | tap.py:55-60 | `_combine(l, r)` is strictly increasing by key, its keys are exactly those of `l` and `r`, and each entry comes from `l` or `r` |
| Matchers.MatchNameScan | tap.py:106-116 | the loop over versions and provided names, plus the own-name pairs, then sorting, returns exactly `MatchName.match` |
| Matchers.MatchDescScan | tap.py:131-137 | the loop over versions with a passing long description returns exactly `MatchDesc.match` |
| Matchers.MatchArchScan | tap.py:190-197 | the loop that skips versions of other architectures returns exactly `MatchArch.match`, unsorted |
| Matchers.Evaluate | tap.py:36-70 | dispatching `match` over any tree, with `AndCombiner`'s early return on an empty left result, returns exactly `Match` |
| MatcherFacts.KeepWhereSpec | tap.py:118-203 | every leaf `filter` returns an order-preserving subsequence of its input holding exactly the inputs its condition accepts |
| MatcherFacts.FilterOfEmpty | tap.py:42-46 | every `filter` of the empty list is empty |
| MatcherFacts.AndIsComposition | tap.py:36-46 | the early return on an empty left result only saves work: `And(l, r)` matches and filters as `r.filter` after `l` |
| MatcherFacts.FilterWithin | tap.py:42-70 | no `filter`, combined or not, returns an entry its input lacked |
| MatcherFacts.FilterSubsequence | tap.py:42-46 | without `OrCombiner`, `filter` returns an order-preserving subsequence of its input |
| MatcherFacts.AndNarrows | tap.py:36-40 | `And(l, r).match` returns only entries of `l.match`, in `l.match`'s order (and sorted when it was) if `r` has no `OrCombiner` |
| MatcherFacts.ProvidedMatchingMembers | tap.py:109-113 | the generator yields `(n, v)` exactly for the provided names `n` of `v` that pass the test |
| MatcherFacts.VersionEntriesMembers | tap.py:135-136 | a version's pairs are its provided names and its package's name |
| MatcherFacts.OwnEntriesMembers | tap.py:173 | `Nonvirtual.match` pairs the package's name with exactly its versions |
| MatcherFacts.MatchNameMembers | tap.py:106-116 | `MatchName.match` is sorted and holds `(n, v)` exactly when `v` provides passing `n`, or `n` is the passing package name |
| MatcherFacts.MatchDescMembers | tap.py:131-137 | `MatchDesc.match` is sorted and holds every name of exactly the versions whose long description passes |
| MatcherFacts.MatchArchMembers | tap.py:190-197 | `MatchArch.match` holds every name of exactly the versions built for an allowed architecture |
| MatcherFacts.CombineMembers | tap.py:55-60 | when keys identify entries, `_combine` keeps exactly the entries of both sides |
| MatcherFacts.FilterRespectsMembers | tap.py:42-70 | when keys identify entries, which entries `filter` keeps depends only on which entries its input holds |
| MatcherFacts.NameLeafAgrees | tap.py:106-122 | `MatchName.match` finds what its `filter` keeps of all the package's pairs |
| MatcherFacts.DescLeafAgrees | tap.py:131-143 | the same for `MatchDesc` |
| MatcherFacts.ArchLeafAgrees | tap.py:190-203 | the same for `MatchArch` |
| MatcherFacts.NonvirtualLeafAgrees | tap.py:172-176 | the same for `Nonvirtual` |
| MatcherFacts.InstalledLeafAgrees | tap.py:152-163 | the same for `Installed` |
| MatcherFacts.LeafMatchIsFilterOfAll | tap.py:102-203 | every leaf's `match` finds exactly what its `filter` keeps of all the package's pairs |
| MatcherFacts.MatchIsFilterOfAll | tap.py:32-70 | for every matcher tree, `match` finds exactly what `filter` keeps of all the package's pairs, and nothing else |
| Pattern.SplitText | tap.py:226-233 | splitting never lengthens the token; `~i`, `~p` and unknown operators take no text and leave the rest |
| Pattern.NextClause | tap.py:217-248 | every successful turn of the `while arg` loop consumes at least one character |
| Pattern.FoldRight | tap.py:260-263 | the `pop` loop builds the right fold `Combiner(c0, Combiner(c1, ...))` |
| Pattern.MakeSearch | tap.py:214-263 | the `while arg` loop returns exactly the compiled token, or the error of its first bad clause |
| Pattern.AssembleClauses | tap.py:252-263 | the default-architecture clause is added exactly to non-empty clause lists without `~a`, then the list is folded |
| PatternFacts.SplitAtTilde | tap.py:226-231 | a text clause's text is split off at the next `~` |
| PatternFacts.ClauseTextRunsToTilde | tap.py:219-231 | the text of `~n`, `~d`, `~a` runs up to, not including, the next `~` |
| PatternFacts.BareTextRunsToTilde | tap.py:222-231 | bare text is a `MatchName(Contains(text))` clause running up to the next `~` |
| PatternFacts.NoTextOperators | tap.py:232-233 | `~i` and `~p` take no text and the rest of the token is read again as clauses |
| PatternFacts.SplitTextAppend | tap.py:226-233 | clauses appended after a clause leave its text as it was |
| PatternFacts.NextClauseAppend | tap.py:217-248 | a clause that reads successfully reads the same with more clauses after it |
| PatternFacts.ClausesAppend | tap.py:217-250 | reading clauses composes at a `~`: well-formed front clauses, then the clauses of the rest as if it stood alone, or the rest's error |
| PatternFacts.UnknownOperatorFails | tap.py:241-247 | an operator outside `n d i a p` fails the whole token, wherever it follows well-formed clauses |
| PatternFacts.TrailingTildeFails | tap.py:219-220 | a `~` ending the token fails it, whatever well-formed clauses come before |
| PatternFacts.EmptyTokenCompilesToNothing | tap.py:255-256 | the empty token has no clause and compiles to the matcher of nothing |
| PatternFacts.AnyArchCompilesToNothing | tap.py:235-239 | `~aany` alone adds no clause and compiles to the matcher of nothing |
| PatternFacts.BareTextCompiles | tap.py:217-263 | bare text is `And(MatchName(Contains(text)), MatchArch([default, "all"]))` |
| PatternFacts.ArchClauseAlone | tap.py:235-245 | `~aany` adds no clause, `~a` restricts to the default and `all`, `~aX` to `X`; each counts as an `~a` clause |
| PatternFacts.TextThenArchClause | tap.py:217-263 | `text~aany` is the name clause alone, `text~a` and `text~aX` AND it with their architectures, and no default is added |
| PatternFacts.ArchClauseThen | tap.py:235-250 | an `~a` clause followed by more clauses contributes its restriction (none for `any`), marks the token as having `~a`, then the rest reads on |
| PatternFacts.ArchClauseInPlace | tap.py:217-250 | an `~a` clause anywhere among well-formed clauses keeps its place in the clause list and marks the token as having `~a` |
| PatternFacts.ArchClauseReplacesDefault | tap.py:235-263 | an `~a` clause anywhere in a well-formed token suppresses the default-architecture clause: the token is the fold of exactly its own clauses |
| PatternFacts.InstalledThenName | tap.py:232-263 | `~ifoo` is `Installed` AND `MatchName("foo")` AND the default architecture |
| PatternFacts.AndChainFiltersInOrder | tap.py:260-263 | the `AndCombiner` fold filters through its clauses from first to last |
| PatternFacts.AndChainMatchesInOrder | tap.py:260-263 | its `match` is the first clause's `match` narrowed by the other clauses' filters in order |
| PatternFacts.OrStep | tap.py:62-65 | `OrCombiner.match` yields each key of either side once, in strictly increasing order |
| PatternFacts.OrChainIsUnion | tap.py:274-276 | the `OrCombiner` fold over the tokens yields exactly the keys some token's matcher yields, each once and in order |
| Classification.InstalledStateChar | tap.py:325-331 | the installed-branch table maps the five states and falls back to `?` exactly for unmapped codes |
| Classification.CandidateStateChar | tap.py:334-339 | the candidate-branch table maps four states and falls back to `p` exactly for the others |
| Classification.AutoChar | tap.py:345-350 | the automatic table is total: blank only for neither flag, `?` only for removable-but-not-auto |
| Classification.SelectChar | tap.py:355-361 | the select table falls back to blank exactly for codes outside its five keys |
| Classification.Classify | tap.py:313-365 | `v` exactly for virtual names; `b` exactly for the broken installed version; automatic and upgrade set only for installed pairs, `u` exactly when upgradable; select set only for the selected version |
| Classification.VirtualFlags | tap.py:318-319 | a virtual name gets `v` with blank automatic and upgrade columns |
| Classification.UnmappedStateFallbacks | tap.py:320-339 | an unmapped current state gives `?` for the installed version and `p` for the candidate, never an error |
| Classification.StateNamesBranch | tap.py:318-341 | the state character tells which branch classified the pair |
| Classification.InstalledResultsShowInstalled | tap.py:158-163 | every pair `Installed` keeps is classified by the installed branch, with `u` exactly when upgradable |
| Template.PlaceholderOfField | tap.py:400-424 | each field's placeholder character reads back as that field, aligned exactly when the align mark is given |
| Template.SourceRoundTrip | tap.py:388-427 | every canonical template (non-empty literals without `%`, never two in a row, alignments the table allows), written back as a format argument, compiles to itself |
| Template.CompiledIsCanonical | tap.py:388-427 | every template `search_format` stores is canonical |
| Template.AfterPercentCanonical | tap.py:393-427 | what the compiler stores from a `%` on is literal text without `%`, a field the table allows, then a canonical rest |
| Template.CompiledRoundTrip | tap.py:388-427 | whatever a format argument compiles to, written back as a format argument, compiles to the same template |
| Template.AlignIgnoredForUnpaddedFields | tap.py:415-424 | the align mark changes nothing for `p`, `d`, `s`, `A` and `u` |
| Template.NoPlaceholderVerbatim | tap.py:389-392 | text with no `%` is copied verbatim |
| Template.TruncatedPlaceholders | tap.py:393-398 | a `%`, or a `%` and the align mark, ending the argument is refused |
| Template.UnknownFieldCharacter | tap.py:398-426 | a field character outside the table is refused |
| Template.UnknownAlignedFieldCharacter | tap.py:394-426 | the same after the align mark |
| Template.DefaultFormatsAreExpressible | tap.py:296-306 | the built-in formats are exactly what their spellings in the placeholder language compile to, so a user can write them |
| Template.Pad | tap.py:296-299 | `%-Ns` left-justifies: the text, then spaces up to `N`; longer text is not cut |
| Template.RenderAppend | tap.py:368-377 | rendering a concatenated format concatenates the renderings |
| Template.FixedPrefixLength | tap.py:294-299 | a run of fixed-width columns renders to the same length for every pair |
| Template.FlagColumnsWidth | tap.py:296-297 | for one-character flags and an architecture of at most six characters, the flag and architecture columns take eleven characters; `%-6s` does not cut a longer architecture such as `ppc64el`, so such a line is outside the statement |
| Template.HeadColumns | tap.py:296-303 | for one-character flags, an architecture of at most six characters and a name no longer than `namelen`, a built-in format line has the padded name at column 11 and the rest of the format after it |
| Template.Options.SearchFormat | tap.py:383-428 | on success `config[target]` is the compiled argument and exactly one argument is consumed; on an error (no argument, truncated or unknown placeholder) nothing changes |
| Search.CompileAll | tap.py:265-267 | a compiled query has one matcher per token |
| Search.CompileAllSpec | tap.py:265-267 | all tokens compile, each to its own matcher, or the error is the first bad token's |
| Search.FlattenMembers | tap.py:286 | `itertools.chain` holds exactly the entries of its lists |
| Search.FlattenEmpty | tap.py:286 | the chain is empty exactly when every list is |
| Search.ResultsMembers | tap.py:280-288 | the results are sorted and hold exactly what the query matches in some package |
| Search.ResultsEmpty | tap.py:283-290 | there are no results exactly when the query matches nothing in every package |
| Search.MaxNameLen | tap.py:294 | `namelen` bounds every displayed name's length and is reached |
| Search.MaxVerLen | tap.py:295 | `verlen` bounds every version string's length and is reached |
| Search.Listing | tap.py:313-377 | one line per result |
| Search.NoResultsMeansNoMatch | tap.py:269-292 | no tokens, or a query matching nothing, prints "No results" and returns 1, and only those |
| Search.SearchOutcomes | tap.py:265-292 | a bad token is reported exactly when some token does not compile; a listing has one line per result |
| Search.DefaultLine | tap.py:367-377 | under the built-in formats a line renders the head columns and the real or virtual tail |
| Search.DefaultColumnsAlign | tap.py:294-311 | under the built-in formats, for a pair whose architecture has at most six characters, the line has its name padded to `namelen` at column 11 and the tail after it; `%-6s` does not cut a longer architecture such as `ppc64el`, so such a line is outside the statement |
| Search.CompileTokens | tap.py:265-267 | the token loop returns exactly the compiled tokens or the first error |
| Search.CollectMatches | tap.py:283-286 | the cache loop collects exactly the chained per-package matches |
| Search.RenderLines | tap.py:313-377 | the output loop renders each result with the virtual format exactly for virtual names |
| Search.Search | tap.py:212-377 | the `search` command returns exactly the specified listing or error, with a token of no clause read as the corrected matcher of nothing; the program as written is `SearchAsWritten` |
| Search.NothingChainMatchesNothing | tap.py:274-276 | an `OrCombiner` fold of matchers of nothing matches nothing |
| Search.NothingTokensFindNothing | tap.py:255-256 | tokens with no clause crash as written on any non-empty cache; corrected, they yield "No results" |
| Search.EmptyTokenCrashesAsWritten | tap.py:283 | `tap ""` and `tap ~aany` crash as written on a cache with a package; corrected, they find nothing |
| Search.NothingBeforeAddsNothing | tap.py:62-65 | corrected, a token with no clause before another adds and removes no result |
| Search.NothingAfterAddsNothing | tap.py:62-65 | the same after another token |

## Left out

- The APT cache (`apt.Cache()`, tap.py:282) and the configured architecture (`apt_pkg.config.find`, tap.py:184) are parameters of the model: `cache` and `defaultArch`.
- The dpkg state codes (`apt_pkg.CURSTATE_*`, `apt_pkg.SELSTATE_*`) are constants with the values of APT's `pkgCache` enumerations.
- `ContainsRegex` (tap.py:91-100) wraps Python's `re` engine, and `make_search` never builds it.
- `ContainsNoCase` lower-cases ASCII letters only. Python's Unicode case mapping is not modelled.
- `main`, the help handlers, `more_verbosity`, the top-level exception handler and the exit codes (tap.py:379-381, 441-534) are process plumbing. Exit status 1 is the `NoResults` error, and raised exceptions are the other errors.
- Debug and output `print`s (tap.py:278, 291, 368-377, 518) and every `__repr__` are left out. Lines are returned as strings.
- Python's general `%` formatting (tap.py:310-311, 368-377) is replaced by segment templates. The `%(namelen)d` and `%(verlen)d` substitution becomes the column widths `Render` is given.
- Merge.SortByKey: states sorted order and permutation, not the stability of Python's `sorted`. Entries with equal keys carry the same package and version in a consistent cache, so the order of equal keys is not observable there.
- Version identity (`package.installed == version`, an object comparison in apt) is modelled as the same owning package name and version string.
- MatcherFacts.FilterSubsequence: holds for trees without `OrCombiner` only. `OrCombiner.filter` re-sorts, so it need not keep its input's order.
- The specification says the select table defaults to `?`. The code (tap.py:355-361) defaults to a blank and maps the unknown state to `?`, and the model follows the code.
- The specification says `|` before `p` or `d` is refused. The code (tap.py:415-424) ignores it, and the model follows the code.
- Python 2 byte strings are modelled as character sequences.
- Search.Search and Search.SearchSpec: a token with no clause (`""`, `~aany`) stands for the corrected matcher of nothing. As written the program raises `AttributeError` on such a token whenever the cache has a package (`tap "" foo`, say). `SearchAsWritten` models that behaviour; see Findings.

## Findings

| source | as written | input that shows it | evidently intended | confidence | as-written member | corrected member |
|---|---|---|---|---|---|---|
| tap.py:255-256 | a token with no clause makes `make_search` return `lambda pkg: []`, which has no `match` method, so `cond.match(p)` (tap.py:283) or `OrCombiner.match` raises `AttributeError` | `tap ""` or `tap ~aany` on a cache with at least one package | a matcher that yields nothing: the token contributes no result and a query of only such tokens prints "No results" | not executed | Search.EmptyTokenCrashesAsWritten | Search.NothingTokensFindNothing |
