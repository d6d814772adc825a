/**
 * The text predicates a pattern clause is built from: `Contains` and
 * `ContainsNoCase` of tap.py, plus `str.find` for one character.
 */
module Text {

  /** `needle` starts `hay`. */
  predicate IsPrefix(needle: string, hay: string) {
    |needle| <= |hay| && hay[..|needle|] == needle
  }

  /** `needle` occurs somewhere in `hay` as a contiguous run: the meaning of Python's `needle in hay`. */
  ghost predicate Occurs(needle: string, hay: string) {
    exists i :: 0 <= i <= |hay| && IsPrefix(needle, hay[i..])
  }

  /** Substring search, as computed: try every start position from the left. */
  function Contains(needle: string, hay: string): bool
    decreases |hay|
  {
    IsPrefix(needle, hay) || (|hay| > 0 && Contains(needle, hay[1..]))
  }

  lemma {:induction false} ContainsOccurs(needle: string, hay: string)
    ensures Contains(needle, hay) <==> Occurs(needle, hay)
    decreases |hay|
  {
    if IsPrefix(needle, hay) {
      assert hay[0..] == hay;
    } else if |hay| > 0 {
      ContainsOccurs(needle, hay[1..]);
      if Occurs(needle, hay[1..]) {
        var i :| 0 <= i <= |hay[1..]| && IsPrefix(needle, hay[1..][i..]);
        assert hay[1..][i..] == hay[i + 1..];
      }
      if Occurs(needle, hay) {
        var i :| 0 <= i <= |hay| && IsPrefix(needle, hay[i..]);
        assert i != 0;
        assert hay[1..][i - 1..] == hay[i..];
      }
    }
  }

  /** The empty string occurs in every string, so a clause with empty text never rejects. */
  lemma EmptyAlwaysContained(hay: string)
    ensures Contains("", hay)
  {
  }

  /** ASCII lower-casing of one character. */
  function LowerChar(c: char): (r: char)
    ensures 'A' <= c <= 'Z' ==> r as int == c as int + 32
    ensures !('A' <= c <= 'Z') ==> r == c
  {
    if 'A' <= c <= 'Z' then (c as int + 32) as char else c
  }

  /** ASCII lower-casing of a string, character by character (`str.lower`). */
  function Lower(s: string): (r: string)
    ensures |r| == |s|
    ensures forall i :: 0 <= i < |s| ==> r[i] == LowerChar(s[i])
    ensures forall i :: 0 <= i < |r| ==> !('A' <= r[i] <= 'Z')
  {
    seq(|s|, i requires 0 <= i < |s| => LowerChar(s[i]))
  }

  lemma LowerIdempotent(s: string)
    ensures Lower(Lower(s)) == Lower(s)
  {
  }

  /** `ContainsNoCase(search)(target)`: the lower-cased search text occurs in the lower-cased target. */
  function ContainsNoCase(search: string, target: string): bool {
    Contains(Lower(search), Lower(target))
  }

  /** Case does not matter on either side: re-casing the target changes nothing. */
  lemma NoCaseIgnoresTargetCase(search: string, target: string)
    ensures ContainsNoCase(search, target) == ContainsNoCase(search, Lower(target))
    ensures ContainsNoCase(search, target) == ContainsNoCase(Lower(search), target)
  {
    LowerIdempotent(target);
    LowerIdempotent(search);
  }

  /** `s.find(c)`: the index of the first `c` in `s`, or -1 when there is none. */
  function Find(s: string, c: char): (i: int)
    ensures -1 <= i < |s|
    ensures i == -1 <==> c !in s
    ensures i >= 0 ==> s[i] == c && c !in s[..i]
  {
    if s == [] then -1
    else if s[0] == c then 0
    else
      var j := Find(s[1..], c);
      if j < 0 then -1 else j + 1
  }

  /** Searching past a prefix without `c` finds the first `c` of the remainder, shifted. */
  lemma {:induction false} FindPastPrefix(a: string, b: string, c: char)
    requires c !in a
    ensures Find(a + b, c) == if Find(b, c) == -1 then -1 else |a| + Find(b, c)
  {
    if a != [] {
      assert (a + b)[1..] == a[1..] + b;
      FindPastPrefix(a[1..], b, c);
    } else {
      assert a + b == b;
    }
  }

  /** Searching a string whose prefix already holds `c` finds the prefix's first `c`. */
  lemma {:induction false} FindInPrefix(a: string, b: string, c: char)
    requires c in a
    ensures Find(a + b, c) == Find(a, c)
  {
    if a[0] != c {
      assert (a + b)[1..] == a[1..] + b;
      assert c in a[1..];
      FindInPrefix(a[1..], b, c);
    }
  }
}
