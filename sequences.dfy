/**
 * `Array.prototype.filter` over Dafny sequences, with the positions it keeps,
 * so that "a subsequence in the original order" can be stated exactly.
 */
module Sequences {

  /** The elements of `s` that satisfy `p`, in their order in `s`. */
  function Filter<T>(s: seq<T>, p: T -> bool): (r: seq<T>)
    ensures |r| <= |s|
    ensures forall i :: 0 <= i < |r| ==> p(r[i])
  {
    if s == [] then []
    else Filter(s[..|s| - 1], p) + (if p(s[|s| - 1]) then [s[|s| - 1]] else [])
  }

  /** The positions in `s` of the elements that `Filter(s, p)` keeps. */
  function FilterIndices<T>(s: seq<T>, p: T -> bool): seq<nat>
  {
    if s == [] then []
    else FilterIndices(s[..|s| - 1], p) + (if p(s[|s| - 1]) then [|s| - 1] else [])
  }

  /** `r` is `s` restricted to the strictly increasing positions `idx`. */
  ghost predicate Embeds<T>(r: seq<T>, s: seq<T>, idx: seq<nat>)
  {
    && |idx| == |r|
    && (forall i :: 0 <= i < |idx| ==> idx[i] < |s| && r[i] == s[idx[i]])
    && (forall i, j :: 0 <= i < j < |idx| ==> idx[i] < idx[j])
  }

  /**
   * `Filter` keeps exactly the positions that satisfy `p`, in increasing order:
   * the result is a subsequence of the input, and no satisfying element is lost.
   */
  lemma {:induction false} FilterEmbeds<T>(s: seq<T>, p: T -> bool)
    ensures Embeds(Filter(s, p), s, FilterIndices(s, p))
    ensures forall j :: 0 <= j < |s| ==> (p(s[j]) <==> j in FilterIndices(s, p))
  {
    if s != [] {
      var n := |s| - 1;
      var front := s[..n];
      FilterEmbeds(front, p);
      var idx0 := FilterIndices(front, p);
      assert forall i :: 0 <= i < |idx0| ==> idx0[i] < n;
      assert forall j :: 0 <= j < n ==> s[j] == front[j];
    }
  }

  /** Every kept element is an input element satisfying `p`, and conversely. */
  lemma FilterMembership<T>(s: seq<T>, p: T -> bool, x: T)
    ensures x in Filter(s, p) <==> x in s && p(x)
  {
    FilterEmbeds(s, p);
    var r, idx := Filter(s, p), FilterIndices(s, p);
    if x in s && p(x) {
      var j :| 0 <= j < |s| && s[j] == x;
      var i :| 0 <= i < |idx| && idx[i] == j;
      assert r[i] == x;
    }
    if x in r {
      var i :| 0 <= i < |r| && r[i] == x;
      assert s[idx[i]] == x;
    }
  }

  /** A filter that rejects nothing returns its input unchanged. */
  lemma {:induction false} FilterKeepsAll<T>(s: seq<T>, p: T -> bool)
    requires forall i :: 0 <= i < |s| ==> p(s[i])
    ensures Filter(s, p) == s
  {
    if s != [] {
      FilterKeepsAll(s[..|s| - 1], p);
    }
  }

  /**
   * Replacing one element that `p` rejects by one it accepts adds exactly one
   * element to the filtered sequence (and the converse removes one).
   */
  lemma {:induction false} FilterUpdateCount<T>(s: seq<T>, k: nat, x: T, p: T -> bool)
    requires k < |s|
    ensures !p(s[k]) && p(x) ==> |Filter(s[k := x], p)| == |Filter(s, p)| + 1
    ensures p(s[k]) && !p(x) ==> |Filter(s[k := x], p)| + 1 == |Filter(s, p)|
    ensures p(s[k]) == p(x) ==> |Filter(s[k := x], p)| == |Filter(s, p)|
  {
    var t := s[k := x];
    var n := |s| - 1;
    if k == n {
      assert t[..n] == s[..n];
    } else {
      assert t[..n] == s[..n][k := x];
      FilterUpdateCount(s[..n], k, x, p);
    }
  }
}
