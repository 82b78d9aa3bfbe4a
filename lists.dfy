/**
 * Kotlin's order-preserving list filter (`filter`, and the in-place `removeIf`,
 * which keeps what the negated predicate accepts), with the facts about it the
 * contact book depends on: it keeps exactly the accepted elements, in order.
 */
module Lists {

  /** The elements of `s` that `keep` accepts, in their original order. */
  function Filter<T>(s: seq<T>, keep: T -> bool): (r: seq<T>)
    ensures |r| <= |s|
    ensures forall x :: x in r ==> x in s && keep(x)
    ensures forall x :: x in s && keep(x) ==> x in r
  {
    if s == [] then []
    else (if keep(s[0]) then [s[0]] else []) + Filter(s[1..], keep)
  }

  /** `idx` lists, in strictly increasing order, the positions of `b` at which the
      elements of `a` are found: `a` is `b` with some elements left out. */
  ghost predicate Embeds<T>(idx: seq<int>, a: seq<T>, b: seq<T>) {
    && |idx| == |a|
    && (forall k :: 0 <= k < |idx| ==> 0 <= idx[k] < |b| && a[k] == b[idx[k]])
    && (forall k, l :: 0 <= k < l < |idx| ==> idx[k] < idx[l])
  }

  /** `a` is a subsequence of `b`: same relative order, nothing added. */
  ghost predicate IsSubsequence<T>(a: seq<T>, b: seq<T>) {
    exists idx :: Embeds(idx, a, b)
  }

  /** The positions at which the result of a filter sits in its input. */
  lemma {:induction false} FilterEmbedding<T>(s: seq<T>, keep: T -> bool) returns (idx: seq<int>)
    ensures Embeds(idx, Filter(s, keep), s)
  {
    if s == [] {
      idx := [];
    } else {
      var tail := FilterEmbedding(s[1..], keep);
      var rest := Filter(s[1..], keep);
      var shifted := EmbedsInTail(tail, rest, s);
      if keep(s[0]) {
        idx := [0] + shifted;
        EmbedsCons(shifted, rest, s);
        assert Filter(s, keep) == [s[0]] + rest;
      } else {
        idx := shifted;
        assert Filter(s, keep) == rest;
      }
    }
  }

  /** An embedding into the tail of `b` moves up by one position in `b`. */
  lemma EmbedsInTail<T>(tail: seq<int>, a: seq<T>, b: seq<T>) returns (shifted: seq<int>)
    requires b != [] && Embeds(tail, a, b[1..])
    ensures Embeds(shifted, a, b)
    ensures forall k :: 0 <= k < |shifted| ==> shifted[k] >= 1
  {
    shifted := seq(|tail|, k requires 0 <= k < |tail| => tail[k] + 1);
    forall k | 0 <= k < |shifted| ensures 1 <= shifted[k] < |b| && a[k] == b[shifted[k]] {
      assert b[1..][tail[k]] == b[tail[k] + 1];
    }
  }

  /** Keeping the head of `b` adds position 0 in front of an embedding that avoids it. */
  lemma EmbedsCons<T>(idx: seq<int>, a: seq<T>, b: seq<T>)
    requires b != [] && Embeds(idx, a, b)
    requires forall k :: 0 <= k < |idx| ==> idx[k] >= 1
    ensures Embeds([0] + idx, [b[0]] + a, b)
  {
  }

  /** A filter preserves order and adds nothing. */
  lemma FilterIsSubsequence<T>(s: seq<T>, keep: T -> bool)
    ensures IsSubsequence(Filter(s, keep), s)
  {
    var idx := FilterEmbedding(s, keep);
  }

  /** A filter keeps every occurrence of an accepted element and none of a rejected one. */
  lemma {:induction false} FilterMultiset<T>(s: seq<T>, keep: T -> bool)
    ensures forall x :: multiset(Filter(s, keep))[x] == if keep(x) then multiset(s)[x] else 0
  {
    if s != [] {
      FilterMultiset(s[1..], keep);
      assert s == [s[0]] + s[1..];
      assert multiset(s) == multiset{s[0]} + multiset(s[1..]);
      var head := if keep(s[0]) then [s[0]] else [];
      assert multiset(Filter(s, keep)) == multiset(head) + multiset(Filter(s[1..], keep));
    }
  }

  /** A filter that accepts every element changes nothing. */
  lemma {:induction false} FilterKeepsAll<T>(s: seq<T>, keep: T -> bool)
    requires forall x :: x in s ==> keep(x)
    ensures Filter(s, keep) == s
  {
    if s != [] {
      FilterKeepsAll(s[1..], keep);
      assert s == [s[0]] + s[1..];
    }
  }
}
