/**
 * What the matcher algebra guarantees: leaf filters keep an order-preserving
 * subsequence, `AndCombiner`'s short-circuit does not change its result, and
 * on a well-formed package `match` equals `filter` applied to every pair the
 * package can yield.
 */
module MatcherFacts {
  import opened Wrappers
  import opened Text
  import opened Packages
  import opened Merge
  import opened Matchers

  /** `a` is `b` with some entries left out and the rest in their order. */
  predicate IsSubsequence(a: seq<Entry>, b: seq<Entry>)
    decreases |b|
  {
    a == [] || (b != [] && ((a[0] == b[0] && IsSubsequence(a[1..], b[1..])) || IsSubsequence(a, b[1..])))
  }

  /** No two distinct entries of `xs` share a key. */
  ghost predicate KeyInjective(xs: seq<Entry>) {
    forall a, b :: a in xs && b in xs && KeyOf(a) == KeyOf(b) ==> a == b
  }

  /** No `OrCombiner` in the tree: its `filter` only ever narrows. */
  predicate OrFree(m: Matcher) {
    match m
    case And(l, r) => OrFree(l) && OrFree(r)
    case Or(_, _) => false
    case _ => true
  }

  lemma {:induction false} SubsequenceMembers(a: seq<Entry>, b: seq<Entry>)
    requires IsSubsequence(a, b)
    ensures forall x :: x in a ==> x in b
    decreases |b|
  {
    if a != [] {
      if a[0] == b[0] && IsSubsequence(a[1..], b[1..]) {
        SubsequenceMembers(a[1..], b[1..]);
        assert a == [a[0]] + a[1..];
      } else {
        SubsequenceMembers(a, b[1..]);
      }
    }
  }

  lemma {:induction false} SubsequenceTransitive(a: seq<Entry>, b: seq<Entry>, c: seq<Entry>)
    requires IsSubsequence(a, b) && IsSubsequence(b, c)
    ensures IsSubsequence(a, c)
    decreases |c|
  {
    if a != [] {
      if b[0] == c[0] && IsSubsequence(b[1..], c[1..]) {
        if a[0] == b[0] && IsSubsequence(a[1..], b[1..]) {
          SubsequenceTransitive(a[1..], b[1..], c[1..]);
        } else {
          SubsequenceTransitive(a, b[1..], c[1..]);
        }
      } else {
        SubsequenceTransitive(a, b, c[1..]);
      }
    }
  }

  /** Dropping entries from a sorted sequence leaves it sorted. */
  lemma {:induction false} SubsequenceSorted(a: seq<Entry>, b: seq<Entry>)
    requires IsSubsequence(a, b) && SortedByKey(b)
    ensures SortedByKey(a)
    decreases |b|
  {
    if a != [] {
      SortedTail(b);
      if a[0] == b[0] && IsSubsequence(a[1..], b[1..]) {
        SubsequenceSorted(a[1..], b[1..]);
        SubsequenceMembers(a[1..], b[1..]);
        SortedCons(a[0], a[1..]);
        assert a == [a[0]] + a[1..];
      } else {
        SubsequenceSorted(a, b[1..]);
      }
    }
  }

  /** Every leaf `filter` keeps exactly the entries its condition holds of, in their order. */
  lemma {:induction false} KeepWhereSpec(m: Matcher, xs: seq<Entry>)
    requires m.IsLeaf()
    ensures IsSubsequence(KeepWhere(m, xs), xs)
    ensures forall x :: x in KeepWhere(m, xs) <==> x in xs && Keeps(m, x)
    decreases |xs|
  {
    if xs != [] {
      KeepWhereSpec(m, xs[1..]);
      var rest := KeepWhere(m, xs[1..]);
      assert xs == [xs[0]] + xs[1..];
      var kept := KeepWhere(m, xs);
      if Keeps(m, xs[0]) {
        assert kept == [xs[0]] + rest;
        assert kept[0] == xs[0] && kept[1..] == rest;
      } else {
        assert kept == rest;
      }
    }
  }

  /** Every matcher's `filter` of nothing is nothing. */
  lemma {:induction false} FilterOfEmpty(m: Matcher)
    ensures Filter(m, []) == []
  {
    match m {
      case And(l, r) => FilterOfEmpty(l);
      case Or(l, r) => FilterOfEmpty(l); FilterOfEmpty(r);
      case _ =>
    }
  }

  /**
   * `AndCombiner` skips `right` when `left` yields nothing; that only saves
   * work: both operations equal `right.filter` of `left`'s result.
   */
  lemma AndIsComposition(l: Matcher, r: Matcher, p: Package, xs: seq<Entry>)
    ensures Match(And(l, r), p) == Filter(r, Match(l, p))
    ensures Filter(And(l, r), xs) == Filter(r, Filter(l, xs))
  {
    FilterOfEmpty(r);
  }

  /** `filter` never adds an entry. */
  lemma {:induction false} FilterWithin(m: Matcher, xs: seq<Entry>)
    ensures forall x :: x in Filter(m, xs) ==> x in xs
  {
    match m {
      case And(l, r) =>
        FilterWithin(l, xs);
        FilterWithin(r, Filter(l, xs));
      case Or(l, r) =>
        FilterWithin(l, xs);
        FilterWithin(r, xs);
      case _ =>
        KeepWhereSpec(m, xs);
    }
  }

  /** Without an `OrCombiner`, `filter` returns an order-preserving subsequence of its input. */
  lemma {:induction false} FilterSubsequence(m: Matcher, xs: seq<Entry>)
    requires OrFree(m)
    ensures IsSubsequence(Filter(m, xs), xs)
  {
    match m {
      case And(l, r) =>
        FilterSubsequence(l, xs);
        FilterSubsequence(r, Filter(l, xs));
        AndIsComposition(l, r, Package("", [], None, None, false, false, false, false, 0, 0), xs);
        SubsequenceTransitive(Filter(r, Filter(l, xs)), Filter(l, xs), xs);
      case _ =>
        KeepWhereSpec(m, xs);
    }
  }

  /**
   * `And(l, r).match` only narrows `l.match`: each result is one of `l`'s, and
   * when `r` has no `OrCombiner` they keep `l`'s order (so stay sorted if `l`'s were).
   */
  lemma AndNarrows(l: Matcher, r: Matcher, p: Package)
    ensures forall x :: x in Match(And(l, r), p) ==> x in Match(l, p)
    ensures OrFree(r) ==> IsSubsequence(Match(And(l, r), p), Match(l, p))
    ensures OrFree(r) && SortedByKey(Match(l, p)) ==> SortedByKey(Match(And(l, r), p))
  {
    AndIsComposition(l, r, p, []);
    FilterWithin(r, Match(l, p));
    if OrFree(r) {
      FilterSubsequence(r, Match(l, p));
      if SortedByKey(Match(l, p)) {
        SubsequenceSorted(Match(And(l, r), p), Match(l, p));
      }
    }
  }

  // ---------------------------------------------------------------------------
  // Which pairs each leaf's `match` yields

  lemma {:induction false} ProvidedMatchingMembers(t: TextTest, p: Package, v: Version, names: seq<string>)
    ensures forall x :: x in ProvidedMatching(t, p, v, names) <==>
      x.pkg == p && x.ver == v && x.name in names && Test(t, x.name)
    decreases |names|
  {
    if names != [] {
      ProvidedMatchingMembers(t, p, v, names[1..]);
      assert names == [names[0]] + names[1..];
    }
  }

  lemma VersionEntriesMembers(p: Package, v: Version)
    ensures forall x :: x in VersionEntries(p, v) <==>
      x.pkg == p && x.ver == v && (x.name in v.provided || x.name == p.name)
  {
    var provided := seq(|v.provided|, i requires 0 <= i < |v.provided| => Entry(v.provided[i], p, v));
    assert VersionEntries(p, v) == provided + [Entry(p.name, p, v)];
    forall x: Entry | x.pkg == p && x.ver == v && x.name in v.provided ensures x in provided {
      var i :| 0 <= i < |v.provided| && v.provided[i] == x.name;
      assert provided[i] == x;
    }
  }

  lemma OwnEntriesMembers(p: Package, vs: seq<Version>)
    ensures forall x :: x in OwnEntries(p, vs) <==> x.pkg == p && x.name == p.name && x.ver in vs
  {
    forall x: Entry | x.pkg == p && x.name == p.name && x.ver in vs ensures x in OwnEntries(p, vs) {
      var i :| 0 <= i < |vs| && vs[i] == x.ver;
      assert OwnEntries(p, vs)[i] == x;
    }
  }

  lemma HarvestOfVersion(sc: Scan, p: Package, v: Version)
    ensures forall x :: x in Harvest(sc, p, v) ==> x.pkg == p && x.ver == v
  {
    match sc {
      case ProvidedBy(t) => ProvidedMatchingMembers(t, p, v, v.provided);
      case _ => VersionEntriesMembers(p, v);
    }
  }

  /** A pass over versions yields, for each version of `vs`, exactly what that version harvests. */
  lemma {:induction false} GatherMembers(sc: Scan, p: Package, vs: seq<Version>)
    ensures forall x :: x in Gather(sc, p, vs) <==> x.ver in vs && x in Harvest(sc, p, x.ver)
    decreases |vs|
  {
    if vs != [] {
      var init, last := vs[..|vs| - 1], vs[|vs| - 1];
      GatherMembers(sc, p, init);
      HarvestOfVersion(sc, p, last);
      assert vs == init + [last];
      forall x: Entry | x.ver in vs && x in Harvest(sc, p, x.ver) ensures x in Gather(sc, p, vs) {
        if x.ver != last {
          assert x.ver in init;
        }
      }
    }
  }

  lemma AllEntriesMembers(p: Package)
    ensures forall x :: x in AllEntries(p) <==>
      x.pkg == p && x.ver in p.versions && (x.name in x.ver.provided || x.name == p.name)
  {
    GatherMembers(Every, p, p.versions);
    forall v | v in p.versions {
      VersionEntriesMembers(p, v);
    }
  }

  /** `MatchName.match`: sorted, and `(n, v)` is in it iff `v` provides `n` and `n` passes, or `n` is the package's name and passes. */
  lemma MatchNameMembers(t: TextTest, p: Package)
    ensures SortedByKey(Match(MatchName(t), p))
    ensures forall x :: x in Match(MatchName(t), p) <==>
      x.pkg == p && x.ver in p.versions &&
      ((x.name in x.ver.provided && Test(t, x.name)) || (x.name == p.name && Test(t, p.name)))
  {
    SameMembers(Match(MatchName(t), p), NameCandidates(t, p));
    GatherMembers(ProvidedBy(t), p, p.versions);
    OwnEntriesMembers(p, p.versions);
    forall v | v in p.versions {
      ProvidedMatchingMembers(t, p, v, v.provided);
    }
  }

  /** `MatchDesc.match`: sorted, and every name of exactly the versions whose long description passes. */
  lemma MatchDescMembers(t: TextTest, p: Package)
    ensures SortedByKey(Match(MatchDesc(t), p))
    ensures forall x :: x in Match(MatchDesc(t), p) <==>
      x.pkg == p && x.ver in p.versions && (x.name in x.ver.provided || x.name == p.name) &&
      Test(t, x.ver.longDesc)
  {
    SameMembers(Match(MatchDesc(t), p), Gather(DescribedBy(t), p, p.versions));
    GatherMembers(DescribedBy(t), p, p.versions);
    forall v | v in p.versions {
      VersionEntriesMembers(p, v);
    }
  }

  /** `MatchArch.match`: every name of exactly the versions built for an allowed architecture. */
  lemma MatchArchMembers(archs: seq<string>, p: Package)
    ensures forall x :: x in Match(MatchArch(archs), p) <==>
      x.pkg == p && x.ver in p.versions && (x.name in x.ver.provided || x.name == p.name) &&
      x.ver.arch in archs
  {
    GatherMembers(BuiltFor(archs), p, p.versions);
    forall v | v in p.versions {
      VersionEntriesMembers(p, v);
    }
  }

  // ---------------------------------------------------------------------------
  // `filter` is `match`'s narrowing counterpart

  // A separate step so that the callers' proofs stay cheap for the solver.
  lemma KeyInjectiveWithin(s: seq<Entry>, xs: seq<Entry>)
    requires KeyInjective(xs) && forall x :: x in s ==> x in xs
    ensures KeyInjective(s)
  {
  }

  /** On a well-formed package no two of its pairs share a key. */
  lemma AllEntriesInjective(p: Package)
    requires WellFormed(p)
    ensures KeyInjective(AllEntries(p))
  {
    AllEntriesMembers(p);
    forall a, b | a in AllEntries(p) && b in AllEntries(p) && KeyOf(a) == KeyOf(b) ensures a == b {
      var i :| 0 <= i < |p.versions| && p.versions[i] == a.ver;
      var j :| 0 <= j < |p.versions| && p.versions[j] == b.ver;
      assert i == j;
    }
  }

  /** When keys identify entries, `_combine` keeps exactly the entries of both sides. */
  lemma CombineMembers(a: seq<Entry>, b: seq<Entry>)
    requires KeyInjective(a + b)
    ensures forall x :: x in Combine(a, b) <==> x in a || x in b
  {
    var c := Combine(a, b);
    forall x | x in a || x in b ensures x in c {
      assert x in a + b;
      assert KeyOf(x) in KeySet(a) + KeySet(b);
      assert KeyOf(x) in KeySet(c);
      var y :| y in c && KeyOf(y) == KeyOf(x);
      assert y in a + b;
    }
  }

  /** When keys identify entries, `filter`'s result depends only on which entries its input holds. */
  lemma {:induction false} FilterRespectsMembers(m: Matcher, xs: seq<Entry>, ys: seq<Entry>)
    requires KeyInjective(xs) && forall x :: x in xs <==> x in ys
    ensures forall x :: x in Filter(m, xs) <==> x in Filter(m, ys)
  {
    match m {
      case And(l, r) =>
        AndIsComposition(l, r, Package("", [], None, None, false, false, false, false, 0, 0), xs);
        AndIsComposition(l, r, Package("", [], None, None, false, false, false, false, 0, 0), ys);
        FilterRespectsMembers(l, xs, ys);
        FilterWithin(l, xs);
        KeyInjectiveWithin(Filter(l, xs), xs);
        FilterRespectsMembers(r, Filter(l, xs), Filter(l, ys));
      case Or(l, r) =>
        FilterRespectsMembers(l, xs, ys);
        FilterRespectsMembers(r, xs, ys);
        FilterWithin(l, xs);
        FilterWithin(r, xs);
        FilterWithin(l, ys);
        FilterWithin(r, ys);
        KeyInjectiveWithin(Filter(l, xs) + Filter(r, xs), xs);
        KeyInjectiveWithin(Filter(l, ys) + Filter(r, ys), xs);
        CombineMembers(Filter(l, xs), Filter(r, xs));
        CombineMembers(Filter(l, ys), Filter(r, ys));
      case _ =>
        KeepWhereSpec(m, xs);
        KeepWhereSpec(m, ys);
    }
  }

  /** One leaf: what its `match` finds is what its `filter` keeps of all the package's entries. */
  ghost predicate LeafAgrees(m: Matcher, p: Package) {
    forall x :: x in Match(m, p) <==> x in Filter(m, AllEntries(p))
  }

  lemma NameLeafAgrees(t: TextTest, p: Package)
    requires WellFormed(p)
    ensures LeafAgrees(MatchName(t), p)
  {
    AllEntriesMembers(p);
    KeepWhereSpec(MatchName(t), AllEntries(p));
    MatchNameMembers(t, p);
  }

  lemma DescLeafAgrees(t: TextTest, p: Package)
    requires WellFormed(p)
    ensures LeafAgrees(MatchDesc(t), p)
  {
    AllEntriesMembers(p);
    KeepWhereSpec(MatchDesc(t), AllEntries(p));
    MatchDescMembers(t, p);
  }

  lemma ArchLeafAgrees(archs: seq<string>, p: Package)
    requires WellFormed(p)
    ensures LeafAgrees(MatchArch(archs), p)
  {
    AllEntriesMembers(p);
    KeepWhereSpec(MatchArch(archs), AllEntries(p));
    MatchArchMembers(archs, p);
  }

  lemma NonvirtualLeafAgrees(p: Package)
    requires WellFormed(p)
    ensures LeafAgrees(Nonvirtual, p)
  {
    AllEntriesMembers(p);
    KeepWhereSpec(Nonvirtual, AllEntries(p));
    OwnEntriesMembers(p, p.versions);
  }

  lemma InstalledLeafAgrees(p: Package)
    requires WellFormed(p)
    ensures LeafAgrees(Installed, p)
  {
    AllEntriesMembers(p);
    KeepWhereSpec(Installed, AllEntries(p));
    forall x | x in Filter(Installed, AllEntries(p)) ensures x in Match(Installed, p) {
      var iv := p.installed.value;
      var i :| 0 <= i < |p.versions| && p.versions[i] == iv;
      var j :| 0 <= j < |p.versions| && p.versions[j] == x.ver;
      assert i == j;
    }
  }

  lemma LeafMatchIsFilterOfAll(m: Matcher, p: Package)
    requires WellFormed(p) && m.IsLeaf()
    ensures forall x :: x in Match(m, p) <==> x in Filter(m, AllEntries(p))
  {
    match m {
      case MatchName(t) => NameLeafAgrees(t, p);
      case MatchDesc(t) => DescLeafAgrees(t, p);
      case MatchArch(archs) => ArchLeafAgrees(archs, p);
      case Nonvirtual => NonvirtualLeafAgrees(p);
      case Installed => InstalledLeafAgrees(p);
      case Nothing => KeepWhereSpec(Nothing, AllEntries(p));
    }
  }


  /**
   * On a well-formed package, `m.match(package)` holds exactly the pairs that
   * `m.filter` keeps out of every pair the package can yield: `filter` is the
   * narrowing counterpart of `match`, for every matcher tree.
   */
  lemma {:induction false} MatchIsFilterOfAll(m: Matcher, p: Package)
    requires WellFormed(p)
    ensures forall x :: x in Match(m, p) <==> x in Filter(m, AllEntries(p))
    ensures forall x :: x in Match(m, p) ==> x in AllEntries(p)
  {
    var all := AllEntries(p);
    AllEntriesInjective(p);
    FilterWithin(m, all);
    match m {
      case And(l, r) =>
        MatchIsFilterOfAll(l, p);
        AndIsComposition(l, r, p, all);
        FilterWithin(l, all);
        KeyInjectiveWithin(Filter(l, all), all);
        FilterRespectsMembers(r, Filter(l, all), Match(l, p));
      case Or(l, r) =>
        MatchIsFilterOfAll(l, p);
        MatchIsFilterOfAll(r, p);
        FilterWithin(l, all);
        FilterWithin(r, all);
        KeyInjectiveWithin(Filter(l, all) + Filter(r, all), all);
        KeyInjectiveWithin(Match(l, p) + Match(r, p), all);
        CombineMembers(Filter(l, all), Filter(r, all));
        CombineMembers(Match(l, p), Match(r, p));
      case _ =>
        LeafMatchIsFilterOfAll(m, p);
    }
  }
}
