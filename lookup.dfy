/**
 * The first-match search that every lookup of the program performs: a loop
 * over a list that returns the first element satisfying a test, or None.
 */
module Lookup {
  import opened Wrappers

  /** The index of the first element of s that satisfies p, or |s| if none does. */
  function FirstIndex<T>(s: seq<T>, p: T -> bool): (k: nat)
    ensures k <= |s|
    ensures k < |s| ==> p(s[k])
    ensures forall j :: 0 <= j < k ==> !p(s[j])
  {
    if |s| == 0 then 0
    else if p(s[0]) then 0
    else 1 + FirstIndex(s[1..], p)
  }

  /** The first element of s that satisfies p. */
  function FindFirst<T>(s: seq<T>, p: T -> bool): (r: Option<T>)
    ensures r.None? <==> forall j :: 0 <= j < |s| ==> !p(s[j])
    ensures r.Some? ==> FirstIndex(s, p) < |s| && r.value == s[FirstIndex(s, p)] && p(r.value)
  {
    var k := FirstIndex(s, p);
    if k < |s| then Some(s[k]) else None
  }

  /** The first index is determined by the elements alone: it is the one hit with only misses before it. */
  lemma FirstIndexIs<T>(s: seq<T>, p: T -> bool, i: nat)
    requires i < |s| && p(s[i])
    requires forall j :: 0 <= j < i ==> !p(s[j])
    ensures FirstIndex(s, p) == i
    ensures FindFirst(s, p) == Some(s[i])
  {
  }

  /** Appending to a list never changes the outcome of a search that already hits. */
  lemma FindFirstAppendHit<T>(s: seq<T>, t: seq<T>, p: T -> bool)
    requires FindFirst(s, p).Some?
    ensures FindFirst(s + t, p) == FindFirst(s, p)
  {
    var k := FirstIndex(s, p);
    assert (s + t)[k] == s[k];
    forall j | 0 <= j < k ensures !p((s + t)[j]) {
      assert (s + t)[j] == s[j];
    }
    FirstIndexIs(s + t, p, k);
  }

  /** A search that misses on s finds x once x, which satisfies the test, is appended. */
  lemma FindFirstAppendMiss<T>(s: seq<T>, x: T, p: T -> bool)
    requires FindFirst(s, p).None?
    requires p(x)
    ensures FindFirst(s + [x], p) == Some(x)
  {
    forall j | 0 <= j < |s| ensures !p((s + [x])[j]) {
      assert (s + [x])[j] == s[j];
    }
    FirstIndexIs(s + [x], p, |s|);
  }
}
