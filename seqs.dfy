/**
 * Order-preserving filtering of sequences, the model of `Array.prototype.filter`.
 */
module Seqs {

  /** The elements of `s` that satisfy `keep`, in their original order. */
  function Filter<T(!new)>(s: seq<T>, keep: T -> bool): (r: seq<T>)
    ensures |r| <= |s|
    ensures forall x :: x in r <==> x in s && keep(x)
  {
    if s == [] then []
    else
      var init := Filter(s[..|s| - 1], keep);
      assert s == s[..|s| - 1] + [s[|s| - 1]];
      if keep(s[|s| - 1]) then init + [s[|s| - 1]] else init
  }

  /** `idx` is a strictly increasing list of positions of `s` whose entries, read in order, give `r`. */
  ghost predicate Embeds<T>(idx: seq<nat>, r: seq<T>, s: seq<T>)
  {
    && |idx| == |r|
    && (forall k :: 0 <= k < |idx| ==> idx[k] < |s| && r[k] == s[idx[k]])
    && (forall k, l :: 0 <= k < l < |idx| ==> idx[k] < idx[l])
  }

  /**
   * Filtering is a subsequence: the kept positions are exactly those whose
   * element satisfies `keep`, and they appear in increasing order.
   */
  lemma {:induction false} FilterPositions<T(!new)>(s: seq<T>, keep: T -> bool) returns (idx: seq<nat>)
    ensures Embeds(idx, Filter(s, keep), s)
    ensures forall j :: 0 <= j < |s| ==> (keep(s[j]) <==> j in idx)
  {
    if s == [] {
      idx := [];
    } else {
      var n := |s| - 1;
      var init := s[..n];
      var sub := FilterPositions(init, keep);
      if keep(s[n]) {
        idx := sub + [n];
      } else {
        idx := sub;
      }
      forall j | 0 <= j < |s| ensures keep(s[j]) <==> j in idx {
        if j < n {
          assert s[j] == init[j];
          assert n !in sub;
        }
      }
    }
  }

  /** A filter whose test every element passes changes nothing. */
  lemma {:induction false} FilterKeepsAll<T(!new)>(s: seq<T>, keep: T -> bool)
    requires forall x :: x in s ==> keep(x)
    ensures Filter(s, keep) == s
  {
    if s != [] {
      FilterKeepsAll(s[..|s| - 1], keep);
      assert s == s[..|s| - 1] + [s[|s| - 1]];
    }
  }

  /** Every sequence embeds in itself. */
  lemma IdentityEmbeds<T>(s: seq<T>) returns (idx: seq<nat>)
    ensures Embeds(idx, s, s)
  {
    idx := seq(|s|, k requires 0 <= k < |s| => k);
  }

  /** A subsequence of a subsequence is a subsequence. */
  lemma ComposeEmbeds<T>(inner: seq<nat>, a: seq<T>, b: seq<T>, outer: seq<nat>, c: seq<T>) returns (idx: seq<nat>)
    requires Embeds(inner, a, b) && Embeds(outer, b, c)
    ensures Embeds(idx, a, c)
  {
    idx := seq(|inner|, k requires 0 <= k < |inner| => outer[inner[k]]);
    forall k, l | 0 <= k < l < |idx| ensures idx[k] < idx[l] {
      assert inner[k] < inner[l];
    }
  }
}
