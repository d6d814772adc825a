/**
 * The package records a query runs over, and `namever_key`, the sort key that
 * orders and de-duplicates results.
 */
module Packages {
  import opened Wrappers

  /** One version of a package: its version string, architecture, provided virtual names and descriptions. */
  datatype Version = Version(
    owner: string,             // name of the package this version belongs to (`version.package.name`)
    version: string,
    arch: string,
    provided: seq<string>,    // the virtual names it provides (`version.provides`)
    longDesc: string,
    summary: string)

  /** A package of the cache, with the attributes classification reads. */
  datatype Package = Package(
    name: string,
    versions: seq<Version>,
    installed: Option<Version>,
    candidate: Option<Version>,
    isAutoInstalled: bool,
    isAutoRemovable: bool,
    isNowBroken: bool,
    isUpgradable: bool,
    currentState: int,         // dpkg current state code of the package
    selectedState: int)        // dpkg selection state code of the package

  /** `a == b` on versions: the same version string of the same package. */
  predicate SameVersion(a: Version, b: Version) {
    a.owner == b.owner && a.version == b.version
  }

  /** `slot == v` where `slot` is `package.installed` or `package.candidate`, which may be `None`. */
  predicate Is(slot: Option<Version>, v: Version) {
    slot.Some? && SameVersion(slot.value, v)
  }

  /** A cache package as APT hands it out: its versions are its own and have distinct version strings. */
  ghost predicate WellFormed(p: Package) {
    && (forall v :: v in p.versions ==> v.owner == p.name)
    && (forall i, j :: 0 <= i < j < |p.versions| ==> p.versions[i].version != p.versions[j].version)
    && (p.installed.Some? ==> p.installed.value in p.versions)
    && (p.candidate.Some? ==> p.candidate.value in p.versions)
  }

  /** A result pair `(displayed name, version)`; the version's package travels with it. */
  datatype Entry = Entry(name: string, pkg: Package, ver: Version)

  /** `namever_key`: displayed name, owning package name, version string. */
  datatype Key = Key(name: string, owner: string, version: string)

  function KeyOf(e: Entry): Key {
    Key(e.name, e.pkg.name, e.ver.version)
  }

  function KeySet(s: seq<Entry>): set<Key> {
    set e | e in s :: KeyOf(e)
  }

  /** A sequence of entries has no keys exactly when it is empty. */
  lemma NoKeys(s: seq<Entry>)
    ensures KeySet(s) == {} <==> s == []
  {
    if s != [] {
      assert KeyOf(s[0]) in KeySet(s);
    }
  }

  /** Python's string `<=`: lexicographic by code point. */
  predicate StrLe(a: string, b: string) {
    a == [] || (b != [] && (a[0] < b[0] || (a[0] == b[0] && StrLe(a[1..], b[1..]))))
  }

  predicate StrLt(a: string, b: string) {
    StrLe(a, b) && a != b
  }

  /** Python's tuple `<=` on keys. */
  predicate KeyLe(a: Key, b: Key) {
    || StrLt(a.name, b.name)
    || (a.name == b.name && (StrLt(a.owner, b.owner) || (a.owner == b.owner && StrLe(a.version, b.version))))
  }

  predicate KeyLt(a: Key, b: Key) {
    KeyLe(a, b) && a != b
  }

  lemma {:induction false} StrLeReflexive(a: string)
    ensures StrLe(a, a)
  {
    if a != [] {
      StrLeReflexive(a[1..]);
    }
  }

  lemma {:induction false} StrLeTotal(a: string, b: string)
    ensures StrLe(a, b) || StrLe(b, a)
  {
    if a != [] && b != [] && a[0] == b[0] {
      StrLeTotal(a[1..], b[1..]);
    }
  }

  lemma {:induction false} StrLeAntisymmetric(a: string, b: string)
    requires StrLe(a, b) && StrLe(b, a)
    ensures a == b
  {
    if a != [] && b != [] {
      StrLeAntisymmetric(a[1..], b[1..]);
      assert a == [a[0]] + a[1..] && b == [b[0]] + b[1..];
    }
  }

  lemma {:induction false} StrLeTransitive(a: string, b: string, c: string)
    requires StrLe(a, b) && StrLe(b, c)
    ensures StrLe(a, c)
  {
    if a != [] && b != [] && c != [] && a[0] == b[0] && b[0] == c[0] {
      StrLeTransitive(a[1..], b[1..], c[1..]);
    }
  }

  lemma KeyLeTotal(a: Key, b: Key)
    ensures KeyLe(a, b) || KeyLe(b, a)
  {
    StrLeTotal(a.name, b.name);
    StrLeTotal(a.owner, b.owner);
    StrLeTotal(a.version, b.version);
  }

  lemma KeyLeAntisymmetric(a: Key, b: Key)
    requires KeyLe(a, b) && KeyLe(b, a)
    ensures a == b
  {
    if a.name != b.name {
      StrLeAntisymmetric(a.name, b.name);
    } else if a.owner != b.owner {
      StrLeAntisymmetric(a.owner, b.owner);
    } else {
      StrLeAntisymmetric(a.version, b.version);
    }
  }

  lemma KeyLeTransitive(a: Key, b: Key, c: Key)
    requires KeyLe(a, b) && KeyLe(b, c)
    ensures KeyLe(a, c)
  {
    if StrLe(a.name, b.name) && StrLe(b.name, c.name) {
      StrLeTransitive(a.name, b.name, c.name);
    }
    if StrLe(a.name, b.name) && StrLe(b.name, a.name) {
      StrLeAntisymmetric(a.name, b.name);
    }
    if StrLe(b.name, c.name) && StrLe(c.name, b.name) {
      StrLeAntisymmetric(b.name, c.name);
    }
    if StrLe(a.name, c.name) && StrLe(c.name, a.name) {
      StrLeAntisymmetric(a.name, c.name);
    }
    if StrLe(a.owner, b.owner) && StrLe(b.owner, c.owner) {
      StrLeTransitive(a.owner, b.owner, c.owner);
    }
    if StrLe(a.owner, b.owner) && StrLe(b.owner, a.owner) {
      StrLeAntisymmetric(a.owner, b.owner);
    }
    if StrLe(b.owner, c.owner) && StrLe(c.owner, b.owner) {
      StrLeAntisymmetric(b.owner, c.owner);
    }
    if StrLe(a.owner, c.owner) && StrLe(c.owner, a.owner) {
      StrLeAntisymmetric(a.owner, c.owner);
    }
    if StrLe(a.version, b.version) && StrLe(b.version, c.version) {
      StrLeTransitive(a.version, b.version, c.version);
    }
  }

  /** Strict order is transitive too, and `KeyLe` fails only when the other way round is strict. */
  lemma KeyLtTransitive(a: Key, b: Key, c: Key)
    requires KeyLt(a, b) && KeyLt(b, c)
    ensures KeyLt(a, c)
  {
    KeyLeTransitive(a, b, c);
    if a == c {
      KeyLeAntisymmetric(a, b);
    }
  }

  lemma NotKeyLe(a: Key, b: Key)
    requires !KeyLe(a, b)
    ensures KeyLt(b, a)
  {
    KeyLeTotal(a, b);
  }
}
