/** Datatypes and facts about collections shared by the modules of the model. */
module Prelude {

  /** A Python `None` or a C++ "not set" next to a proper value. */
  datatype Option<+T> = None | Some(value: T)

  function Max(x: int, y: int): int {
    if x < y then y else x
  }

  lemma SubsetSize<T>(a: set<T>, b: set<T>)
    requires a <= b
    ensures |a| <= |b|
  {
    assert b == a + (b - a);
  }

  lemma SameSize<T>(s: seq<T>, t: seq<T>)
    requires multiset(s) == multiset(t)
    ensures |s| == |t|
  {
    assert |multiset(s)| == |s| && |multiset(t)| == |t|;
  }

  lemma Removed<T>(s: seq<T>, k: nat)
    requires k < |s|
    ensures multiset(s[..k] + s[k + 1..]) == multiset(s) - multiset{s[k]}
  {
    assert s == s[..k] + [s[k]] + s[k + 1..];
  }

  lemma OccursTwice<T>(s: seq<T>, p: nat, q: nat)
    requires p < q < |s| && s[p] == s[q]
    ensures multiset(s)[s[p]] >= 2
  {
    assert s == s[..p] + [s[p]] + s[p + 1..q] + [s[q]] + s[q + 1..];
  }

  /** What occurs only once in one order occurs only once in any other. */
  lemma OccursOnce<T>(s: seq<T>, k: nat)
    requires k < |s| && forall i, j :: 0 <= i < j < |s| ==> s[i] != s[j]
    ensures multiset(s)[s[k]] == 1
  {
    var front, back := s[..k], s[k + 1..];
    assert s == front + [s[k]] + back;
    assert s[k] !in front && s[k] !in back;
    assert multiset(front)[s[k]] == 0 && multiset(back)[s[k]] == 0;
  }

  lemma RearrangedStaysDistinct<T>(s: seq<T>, t: seq<T>, p: nat, q: nat)
    requires multiset(s) == multiset(t) && p < q < |t|
    requires forall k, l :: 0 <= k < l < |s| ==> s[k] != s[l]
    ensures t[p] != t[q]
  {
    assert t[p] in multiset(s);
    var k :| 0 <= k < |s| && s[k] == t[p];
    OccursOnce(s, k);
    if t[p] == t[q] { OccursTwice(t, p, q); }
  }
}
