/**
 * Order-preserving filtering of sequences: the `Array.prototype.filter` and
 * `String.prototype.replace(/c/g, "")` shapes used throughout the ledger.
 */
module Seqs {

  /** The elements of `s` that satisfy `p`, in their original order. */
  function Filter<T>(s: seq<T>, p: T -> bool): (r: seq<T>)
    ensures |r| <= |s|
    ensures forall i :: 0 <= i < |r| ==> p(r[i])
  {
    if s == [] then []
    else (if p(s[0]) then [s[0]] else []) + Filter(s[1..], p)
  }

  /** Filtering distributes over concatenation, so the relative order of survivors is kept. */
  lemma {:induction false} FilterConcat<T>(a: seq<T>, b: seq<T>, p: T -> bool)
    ensures Filter(a + b, p) == Filter(a, p) + Filter(b, p)
  {
    if a == [] {
      assert a + b == b;
    } else {
      assert (a + b)[1..] == a[1..] + b;
      FilterConcat(a[1..], b, p);
    }
  }

  /** Nothing is dropped exactly when every element satisfies `p`, and then the result is `s`. */
  lemma {:induction false} FilterKeepsAll<T>(s: seq<T>, p: T -> bool)
    ensures |Filter(s, p)| == |s| <==> forall i :: 0 <= i < |s| ==> p(s[i])
    ensures (forall i :: 0 <= i < |s| ==> p(s[i])) ==> Filter(s, p) == s
  {
    if s != [] {
      var t := s[1..];
      FilterKeepsAll(t, p);
      var all := forall i :: 0 <= i < |s| ==> p(s[i]);
      assert all <==> p(s[0]) && forall i :: 0 <= i < |t| ==> p(t[i]) by {
        assert forall i :: 0 <= i < |t| ==> t[i] == s[i + 1];
        assert forall i :: 1 <= i < |s| ==> s[i] == t[i - 1];
      }
      if p(s[0]) {
        assert Filter(s, p) == [s[0]] + Filter(t, p);
        assert s == [s[0]] + t;
      } else {
        assert Filter(s, p) == Filter(t, p);
      }
    }
  }

  /** Every occurrence of an element satisfying `p` is kept, and no other element is. */
  lemma {:induction false} FilterCounts<T>(s: seq<T>, p: T -> bool)
    ensures forall x :: p(x) ==> multiset(Filter(s, p))[x] == multiset(s)[x]
    ensures forall x :: !p(x) ==> multiset(Filter(s, p))[x] == 0
  {
    if s != [] {
      FilterCounts(s[1..], p);
      assert s == [s[0]] + s[1..];
      assert multiset(s) == multiset([s[0]]) + multiset(s[1..]);
      assert Filter(s, p) == (if p(s[0]) then [s[0]] else []) + Filter(s[1..], p);
    }
  }

  /**
   * The position in `s` of the `k`-th survivor of `Filter(s, p)`, or -1 when there are
   * not that many survivors.
   */
  function SourceIndex<T>(s: seq<T>, p: T -> bool, k: int): (j: int)
    ensures 0 <= k < |Filter(s, p)| ==> 0 <= j < |s| && s[j] == Filter(s, p)[k] && p(s[j])
    ensures 0 <= k < |Filter(s, p)| ==> |Filter(s[..j], p)| == k
    ensures !(0 <= k < |Filter(s, p)|) ==> j == -1
  {
    if s == [] || k < 0 then -1
    else if p(s[0]) then
      if k == 0 then assert s[..0] == []; 0
      else var j := SourceIndex(s[1..], p, k - 1); if j < 0 then -1 else SourceIndexStep(s, p, j); j + 1
    else var j := SourceIndex(s[1..], p, k); if j < 0 then -1 else SourceIndexStep(s, p, j); j + 1
  }

  /** The survivors before position `j + 1` of `s` are `s[0]`'s, then those before `j` of `s[1..]`. */
  lemma SourceIndexStep<T>(s: seq<T>, p: T -> bool, j: nat)
    requires j + 1 < |s|
    ensures Filter(s[..j + 1], p) == (if p(s[0]) then [s[0]] else []) + Filter(s[1..][..j], p)
  {
    assert s[..j + 1][1..] == s[1..][..j];
  }

  /** `Array.prototype.map`: `f` applied to every element, in order. */
  function Map<A, B>(s: seq<A>, f: A -> B): (r: seq<B>)
    ensures |r| == |s| && forall i :: 0 <= i < |s| ==> r[i] == f(s[i])
  {
    seq(|s|, i requires 0 <= i < |s| => f(s[i]))
  }

  /** Mapping distributes over concatenation. */
  lemma MapConcat<A, B>(a: seq<A>, b: seq<A>, f: A -> B)
    ensures Map(a + b, f) == Map(a, f) + Map(b, f)
  {
  }
}
