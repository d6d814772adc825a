/**
 * `sorted(..., key=namever_key)` and `OrCombiner._combine`: a stable sort by key
 * followed by dropping every entry whose key equals its predecessor's.
 */
module Merge {
  import opened Packages

  ghost predicate SortedByKey(s: seq<Entry>) {
    forall i, j :: 0 <= i < j < |s| ==> KeyLe(KeyOf(s[i]), KeyOf(s[j]))
  }

  /** Strictly increasing by key: sorted and no two entries share a key. */
  ghost predicate StrictlySorted(s: seq<Entry>) {
    forall i, j :: 0 <= i < j < |s| ==> KeyLt(KeyOf(s[i]), KeyOf(s[j]))
  }

  /** Every entry of `s` has a key at least `k`. */
  ghost predicate AllAtLeast(k: Key, s: seq<Entry>) {
    forall x :: x in s ==> KeyLe(k, KeyOf(x))
  }

  /** Every entry of `s` has a key above `k`. */
  ghost predicate AllAbove(k: Key, s: seq<Entry>) {
    forall x :: x in s ==> KeyLt(k, KeyOf(x))
  }

  lemma SortedCons(x: Entry, t: seq<Entry>)
    requires SortedByKey(t) && AllAtLeast(KeyOf(x), t)
    ensures SortedByKey([x] + t)
  {
    var s := [x] + t;
    forall i, j | 0 <= i < j < |s| ensures KeyLe(KeyOf(s[i]), KeyOf(s[j])) {
      if i == 0 {
        assert s[j] == t[j - 1];
        assert s[j] in t;
      } else {
        assert s[i] == t[i - 1] && s[j] == t[j - 1];
      }
    }
  }

  lemma StrictCons(x: Entry, t: seq<Entry>)
    requires StrictlySorted(t) && AllAbove(KeyOf(x), t)
    ensures StrictlySorted([x] + t)
  {
    var s := [x] + t;
    forall i, j | 0 <= i < j < |s| ensures KeyLt(KeyOf(s[i]), KeyOf(s[j])) {
      if i == 0 {
        assert s[j] == t[j - 1];
        assert s[j] in t;
      } else {
        assert s[i] == t[i - 1] && s[j] == t[j - 1];
      }
    }
  }

  /** Insert `e` before the first entry whose key is not below it, so that earlier equal keys stay first. */
  function Insert(e: Entry, s: seq<Entry>): (r: seq<Entry>)
    requires SortedByKey(s)
    ensures SortedByKey(r)
    ensures multiset(r) == multiset(s) + multiset{e}
  {
    if s == [] || KeyLe(KeyOf(e), KeyOf(s[0])) then
      InsertHere(e, s);
      [e] + s
    else
      var t := Insert(e, s[1..]);
      assert s == [s[0]] + s[1..];
      InsertLater(e, s, t);
      [s[0]] + t
  }

  lemma InsertHere(e: Entry, s: seq<Entry>)
    requires SortedByKey(s)
    requires s == [] || KeyLe(KeyOf(e), KeyOf(s[0]))
    ensures SortedByKey([e] + s)
  {
    forall x | x in s ensures KeyLe(KeyOf(e), KeyOf(x)) {
      var j :| 0 <= j < |s| && s[j] == x;
      if j > 0 {
        KeyLeTransitive(KeyOf(e), KeyOf(s[0]), KeyOf(x));
      }
    }
    SortedCons(e, s);
  }

  lemma InsertLater(e: Entry, s: seq<Entry>, t: seq<Entry>)
    requires SortedByKey(s) && s != [] && !KeyLe(KeyOf(e), KeyOf(s[0]))
    requires SortedByKey(t) && multiset(t) == multiset(s[1..]) + multiset{e}
    ensures SortedByKey([s[0]] + t)
  {
    NotKeyLe(KeyOf(e), KeyOf(s[0]));
    forall x | x in t ensures KeyLe(KeyOf(s[0]), KeyOf(x)) {
      assert x in multiset(t);
      if x != e {
        assert x in multiset(s[1..]);
        assert x in s[1..];
        var j :| 0 <= j < |s[1..]| && s[1..][j] == x;
        assert s[j + 1] == x;
      }
    }
    SortedCons(s[0], t);
  }

  /** `sorted(s, key=namever_key)`: insertion sort, which is stable like Python's. */
  function SortByKey(s: seq<Entry>): (r: seq<Entry>)
    ensures SortedByKey(r)
    ensures multiset(r) == multiset(s)
  {
    if s == [] then []
    else
      assert s == [s[0]] + s[1..];
      Insert(s[0], SortByKey(s[1..]))
  }

  lemma SameMembers(a: seq<Entry>, b: seq<Entry>)
    requires multiset(a) == multiset(b)
    ensures forall x :: x in a <==> x in b
    ensures KeySet(a) == KeySet(b)
  {
    forall x ensures x in a <==> x in b {
      assert x in a <==> x in multiset(a);
      assert x in b <==> x in multiset(b);
    }
  }

  /** The entries after one whose key is `prev`, keeping each whose key differs from its predecessor's. */
  function KeptAfter(prev: Key, s: seq<Entry>): seq<Entry>
    decreases |s|
  {
    if s == [] then []
    else (if KeyOf(s[0]) != prev then [s[0]] else []) + KeptAfter(KeyOf(s[0]), s[1..])
  }

  /** `[merged[i] for i in range(len(merged)) if i == 0 or keys[i] != keys[i-1]]` */
  function Dedup(s: seq<Entry>): seq<Entry> {
    if s == [] then [] else [s[0]] + KeptAfter(KeyOf(s[0]), s[1..])
  }

  /** The tail of a sorted sequence is sorted and bounded below by its head. */
  lemma SortedTail(s: seq<Entry>)
    requires SortedByKey(s) && s != []
    ensures SortedByKey(s[1..]) && AllAtLeast(KeyOf(s[0]), s[1..])
  {
    forall x | x in s[1..] ensures KeyLe(KeyOf(s[0]), KeyOf(x)) {
      var j :| 0 <= j < |s[1..]| && s[1..][j] == x;
      assert s[j + 1] == x;
    }
  }

  lemma {:induction false} KeptAfterSorted(prev: Key, s: seq<Entry>)
    requires SortedByKey(s) && AllAtLeast(prev, s)
    ensures StrictlySorted(KeptAfter(prev, s))
    ensures AllAbove(prev, KeptAfter(prev, s))
    decreases |s|
  {
    if s != [] {
      var h, t := s[0], s[1..];
      var kh := KeyOf(h);
      SortedTail(s);
      KeptAfterSorted(kh, t);
      var rest := KeptAfter(kh, t);
      assert KeyLe(prev, kh) by { assert h in s; }
      if kh != prev {
        forall x | x in rest ensures KeyLt(prev, KeyOf(x)) {
          KeyLeTransitive(prev, kh, KeyOf(x));
          if prev == KeyOf(x) {
            KeyLeAntisymmetric(prev, kh);
          }
        }
        StrictCons(h, rest);
        assert KeptAfter(prev, s) == [h] + rest;
      }
    }
  }

  lemma KeySetCons(h: Entry, t: seq<Entry>)
    ensures KeySet([h] + t) == {KeyOf(h)} + KeySet(t)
  {
    var s := [h] + t;
    forall k | k in KeySet(s) ensures k in {KeyOf(h)} + KeySet(t) {
      var x :| x in s && KeyOf(x) == k;
      if x != h {
        assert x in t;
      }
    }
    forall k | k in KeySet(t) ensures k in KeySet(s) {
      var x :| x in t && KeyOf(x) == k;
      assert x in s;
    }
    assert h in s;
  }

  lemma {:induction false} KeptAfterKeys(prev: Key, s: seq<Entry>)
    requires SortedByKey(s) && AllAtLeast(prev, s)
    ensures KeySet(KeptAfter(prev, s)) == KeySet(s) - {prev}
    decreases |s|
  {
    if s != [] {
      var h, t := s[0], s[1..];
      var kh := KeyOf(h);
      SortedTail(s);
      KeptAfterKeys(kh, t);
      var rest := KeptAfter(kh, t);
      assert s == [h] + t;
      KeySetCons(h, t);
      if kh != prev {
        assert KeyLe(prev, kh) by { assert h in s; }
        assert prev !in KeySet(t) by {
          if prev in KeySet(t) {
            var x :| x in t && KeyOf(x) == prev;
            KeyLeAntisymmetric(prev, kh);
          }
        }
        assert KeptAfter(prev, s) == [h] + rest;
        KeySetCons(h, rest);
      } else {
        assert KeptAfter(prev, s) == rest;
      }
    }
  }

  lemma {:induction false} KeptAfterWithin(prev: Key, s: seq<Entry>)
    ensures forall x :: x in KeptAfter(prev, s) ==> x in s
    decreases |s|
  {
    if s != [] {
      KeptAfterWithin(KeyOf(s[0]), s[1..]);
    }
  }

  /** Every entry whose key differs from the one before it (or from `prev`, for the first) is kept. */
  lemma {:induction false} KeptAfterRunStarts(prev: Key, s: seq<Entry>)
    ensures forall j :: 0 <= j < |s| && KeyOf(s[j]) != (if j == 0 then prev else KeyOf(s[j - 1])) ==> s[j] in KeptAfter(prev, s)
    decreases |s|
  {
    if s != [] {
      var t := s[1..];
      var head := if KeyOf(s[0]) != prev then [s[0]] else [];
      assert KeptAfter(prev, s) == head + KeptAfter(KeyOf(s[0]), t);
      KeptAfterRunStarts(KeyOf(s[0]), t);
      forall j | 1 <= j < |s| && KeyOf(s[j]) != KeyOf(s[j - 1]) ensures s[j] in KeptAfter(prev, s) {
        assert t[j - 1] == s[j];
        if j > 1 {
          assert t[j - 2] == s[j - 1];
        }
      }
    }
  }

  /**
   * `_combine`'s deduplication of a sorted list: strictly increasing, the same
   * keys, only original entries, and the first entry of each run of equal keys
   * is the one kept.
   */
  lemma DedupSpec(s: seq<Entry>)
    requires SortedByKey(s)
    ensures StrictlySorted(Dedup(s))
    ensures KeySet(Dedup(s)) == KeySet(s)
    ensures forall x :: x in Dedup(s) ==> x in s
    ensures forall j :: 0 <= j < |s| && (j == 0 || KeyOf(s[j - 1]) != KeyOf(s[j])) ==> s[j] in Dedup(s)
  {
    if s != [] {
      var h, t := s[0], s[1..];
      assert s == [h] + t;
      KeptAfterRunStarts(KeyOf(h), t);
      forall j | 1 <= j < |s| && KeyOf(s[j - 1]) != KeyOf(s[j]) ensures s[j] in Dedup(s) {
        assert t[j - 1] == s[j];
        if j > 1 {
          assert t[j - 2] == s[j - 1];
        }
      }
      SortedTail(s);
      KeptAfterSorted(KeyOf(h), t);
      KeptAfterKeys(KeyOf(h), t);
      KeptAfterWithin(KeyOf(h), t);
      var rest := KeptAfter(KeyOf(h), t);
      StrictCons(h, rest);
      assert KeySet(s) == {KeyOf(h)} + KeySet(t);
      assert KeySet([h] + rest) == {KeyOf(h)} + KeySet(rest);
    }
  }

  /**
   * `OrCombiner._combine(l, r)`: strictly increasing by key, with exactly the
   * keys of `l` and `r` together, and only entries taken from them.
   */
  function Combine(l: seq<Entry>, r: seq<Entry>): (m: seq<Entry>)
    ensures StrictlySorted(m)
    ensures KeySet(m) == KeySet(l) + KeySet(r)
    ensures forall x :: x in m ==> x in l || x in r
  {
    var merged := SortByKey(l + r);
    SameMembers(merged, l + r);
    DedupSpec(merged);
    assert KeySet(l + r) == KeySet(l) + KeySet(r);
    Dedup(merged)
  }
}
