/**
 * The search "AST" of tap.py: leaf matchers (`MatchName`, `MatchDesc`,
 * `Installed`, `Nonvirtual`, `MatchArch`), `AndCombiner` and `OrCombiner`,
 * each with a from-scratch `match(package)` and a narrowing `filter(results)`.
 */
module Matchers {
  import opened Wrappers
  import opened Text
  import opened Packages
  import opened Merge

  /** The callable a name or description clause holds: `Contains(s)` or `ContainsNoCase(s)`. */
  datatype TextTest = Substring(search: string) | SubstringNoCase(search: string)

  predicate Test(t: TextTest, target: string) {
    match t
    case Substring(s) => Contains(s, target)
    case SubstringNoCase(s) => ContainsNoCase(s, target)
  }

  datatype Matcher =
    | MatchName(test: TextTest)
    | MatchDesc(test: TextTest)
    | Installed
    | Nonvirtual
    | MatchArch(archs: seq<string>)
    | And(left: Matcher, right: Matcher)
    | Or(left: Matcher, right: Matcher)
    | Nothing                              // the matcher of a token with no clauses: yields nothing
  {
    predicate IsLeaf() {
      !And? && !Or?
    }
  }

  /** The provided names of `v` in `names` that pass `t`, each paired with `v` (the generator of `MatchName.match`). */
  function ProvidedMatching(t: TextTest, p: Package, v: Version, names: seq<string>): seq<Entry> {
    if names == [] then []
    else (if Test(t, names[0]) then [Entry(names[0], p, v)] else []) + ProvidedMatching(t, p, v, names[1..])
  }

  /** Every name `v` is known by: its provided names, then its package's own name. */
  function VersionEntries(p: Package, v: Version): seq<Entry> {
    seq(|v.provided|, i requires 0 <= i < |v.provided| => Entry(v.provided[i], p, v)) + [Entry(p.name, p, v)]
  }

  /** `(package.name, v)` for every `v` of `vs`. */
  function OwnEntries(p: Package, vs: seq<Version>): seq<Entry> {
    seq(|vs|, i requires 0 <= i < |vs| => Entry(p.name, p, vs[i]))
  }

  /** What one pass over a package's versions collects from each version. */
  datatype Scan = ProvidedBy(t: TextTest) | DescribedBy(t: TextTest) | BuiltFor(archs: seq<string>) | Every

  function Harvest(sc: Scan, p: Package, v: Version): seq<Entry> {
    match sc
    case ProvidedBy(t) => ProvidedMatching(t, p, v, v.provided)
    case DescribedBy(t) => if Test(t, v.longDesc) then VersionEntries(p, v) else []
    case BuiltFor(archs) => if v.arch in archs then VersionEntries(p, v) else []
    case Every => VersionEntries(p, v)
  }

  /** The concatenated harvest of `vs`, in order (defined from the back, as a loop builds it). */
  function Gather(sc: Scan, p: Package, vs: seq<Version>): seq<Entry> {
    if vs == [] then [] else Gather(sc, p, vs[..|vs| - 1]) + Harvest(sc, p, vs[|vs| - 1])
  }

  /** Every pair a package can yield: each version under each of its names. */
  function AllEntries(p: Package): seq<Entry> {
    Gather(Every, p, p.versions)
  }

  /** The unsorted list `MatchName.match` builds before sorting it. */
  function NameCandidates(t: TextTest, p: Package): seq<Entry> {
    Gather(ProvidedBy(t), p, p.versions) + (if Test(t, p.name) then OwnEntries(p, p.versions) else [])
  }

  /** The condition each leaf's `filter` keeps a result by. */
  predicate Keeps(m: Matcher, e: Entry)
    requires m.IsLeaf()
  {
    match m
    case MatchName(t) => Test(t, e.name)
    case MatchDesc(t) => Test(t, e.ver.longDesc)
    case Installed => e.pkg.name == e.name && Is(e.pkg.installed, e.ver)
    case Nonvirtual => e.name == e.pkg.name
    case MatchArch(archs) => e.ver.arch in archs
    case Nothing => false
  }

  /** A leaf's `filter`: the comprehension `[r for r in results if <condition>]`. */
  function KeepWhere(m: Matcher, xs: seq<Entry>): seq<Entry>
    requires m.IsLeaf()
  {
    if xs == [] then []
    else (if Keeps(m, xs[0]) then [xs[0]] else []) + KeepWhere(m, xs[1..])
  }

  /** `m.match(package)`. */
  function Match(m: Matcher, p: Package): seq<Entry>
    decreases m, 1
  {
    match m
    case MatchName(t) => SortByKey(NameCandidates(t, p))
    case MatchDesc(t) => SortByKey(Gather(DescribedBy(t), p, p.versions))
    case Installed => if p.installed.Some? then [Entry(p.name, p, p.installed.value)] else []
    case Nonvirtual => OwnEntries(p, p.versions)
    case MatchArch(archs) => Gather(BuiltFor(archs), p, p.versions)
    case And(l, r) =>
      var left := Match(l, p);
      if left == [] then [] else Filter(r, left)
    case Or(l, r) => Combine(Match(l, p), Match(r, p))
    case Nothing => []
  }

  /** `m.filter(results)`. */
  function Filter(m: Matcher, xs: seq<Entry>): seq<Entry>
    decreases m, 0
  {
    match m
    case And(l, r) =>
      var left := Filter(l, xs);
      if left == [] then [] else Filter(r, left)
    case Or(l, r) => Combine(Filter(l, xs), Filter(r, xs))
    case _ => KeepWhere(m, xs)
  }

  // ---------------------------------------------------------------------------
  // The loops of the leaf `match` methods and the dispatch over the tree

  /** `MatchName.match`: collect matching provided names version by version, then the own name, then sort. */
  method MatchNameScan(t: TextTest, p: Package) returns (results: seq<Entry>)
    ensures results == Match(MatchName(t), p)
  {
    results := [];
    for i := 0 to |p.versions|
      invariant results == Gather(ProvidedBy(t), p, p.versions[..i])
    {
      var v := p.versions[i];
      results := results + ProvidedMatching(t, p, v, v.provided);
      assert p.versions[..i + 1][..i] == p.versions[..i];
    }
    assert p.versions[..|p.versions|] == p.versions;
    if Test(t, p.name) {
      results := results + OwnEntries(p, p.versions);
    }
    assert results == NameCandidates(t, p);
    results := SortByKey(results);
  }

  /** `MatchDesc.match`: every name of each version whose long description passes, then sort. */
  method MatchDescScan(t: TextTest, p: Package) returns (results: seq<Entry>)
    ensures results == Match(MatchDesc(t), p)
  {
    results := [];
    for i := 0 to |p.versions|
      invariant results == Gather(DescribedBy(t), p, p.versions[..i])
    {
      var v := p.versions[i];
      ghost var before := results;
      if Test(t, v.longDesc) {
        results := results + seq(|v.provided|, k requires 0 <= k < |v.provided| => Entry(v.provided[k], p, v));
        results := results + [Entry(p.name, p, v)];
      }
      assert results == before + Harvest(DescribedBy(t), p, v);
      assert p.versions[..i + 1][..i] == p.versions[..i];
    }
    assert p.versions[..|p.versions|] == p.versions;
    results := SortByKey(results);
  }

  /** `MatchArch.match`: every name of each version built for an allowed architecture; not sorted. */
  method MatchArchScan(archs: seq<string>, p: Package) returns (results: seq<Entry>)
    ensures results == Match(MatchArch(archs), p)
  {
    results := [];
    for i := 0 to |p.versions|
      invariant results == Gather(BuiltFor(archs), p, p.versions[..i])
    {
      var v := p.versions[i];
      assert p.versions[..i + 1][..i] == p.versions[..i];
      assert Gather(BuiltFor(archs), p, p.versions[..i + 1])
          == Gather(BuiltFor(archs), p, p.versions[..i]) + Harvest(BuiltFor(archs), p, v);
      if v.arch !in archs {
        continue;
      }
      ghost var before := results;
      results := results + seq(|v.provided|, k requires 0 <= k < |v.provided| => Entry(v.provided[k], p, v));
      results := results + [Entry(p.name, p, v)];
      assert results == before + VersionEntries(p, v);
    }
    assert p.versions[..|p.versions|] == p.versions;
  }

  /** `m.match(package)` by dispatch: the leaf scans above, `AndCombiner.match` and `OrCombiner.match`. */
  method Evaluate(m: Matcher, p: Package) returns (results: seq<Entry>)
    ensures results == Match(m, p)
    decreases m
  {
    match m {
      case MatchName(t) => results := MatchNameScan(t, p);
      case MatchDesc(t) => results := MatchDescScan(t, p);
      case MatchArch(archs) => results := MatchArchScan(archs, p);
      case Installed =>
        results := if p.installed.Some? then [Entry(p.name, p, p.installed.value)] else [];
      case Nonvirtual => results := OwnEntries(p, p.versions);
      case Nothing => results := [];
      case And(l, r) =>
        results := Evaluate(l, p);
        if results == [] {
          return [];
        }
        results := Filter(r, results);
      case Or(l, r) =>
        var left := Evaluate(l, p);
        var right := Evaluate(r, p);
        results := Combine(left, right);
    }
  }
}
