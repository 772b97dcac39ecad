/** Order-preserving sequence operations used by the stores and the views:
    counting, filtering (JavaScript's `Array.prototype.filter`) and reversal,
    together with the subsequence relation that states "relative order kept". */
module Seqs {

  /** Number of elements of `s` that satisfy `p`. */
  function Count<T>(p: T -> bool, s: seq<T>): (n: nat)
    ensures n <= |s|
    ensures n == |s| <==> forall i :: 0 <= i < |s| ==> p(s[i])
  {
    if |s| == 0 then 0 else (if p(s[0]) then 1 else 0) + Count(p, s[1..])
  }

  /** The negation of a predicate. */
  function Not<T>(p: T -> bool): T -> bool {
    x => !p(x)
  }

  /** `a` is obtained from `b` by deleting elements; the remaining ones keep
      their relative order. Greedy matching from the left decides it. */
  predicate Subsequence<T(==)>(a: seq<T>, b: seq<T>)
    decreases |b|
  {
    if |a| == 0 then true
    else if |b| == 0 then false
    else if a[0] == b[0] then Subsequence(a[1..], b[1..])
    else Subsequence(a, b[1..])
  }

  /** The elements of `s` that satisfy `p`, in their original order. */
  function Filter<T(==)>(p: T -> bool, s: seq<T>): (r: seq<T>)
    ensures |r| == Count(p, s)
    ensures forall i :: 0 <= i < |r| ==> p(r[i]) && r[i] in s
    ensures forall i :: 0 <= i < |s| && p(s[i]) ==> s[i] in r
    ensures Subsequence(r, s)
  {
    if |s| == 0 then []
    else if p(s[0]) then [s[0]] + Filter(p, s[1..])
    else Filter(p, s[1..])
  }

  /** `s` read back to front. */
  function Reverse<T>(s: seq<T>): (r: seq<T>)
    ensures |r| == |s|
    ensures forall i :: 0 <= i < |s| ==> r[i] == s[|s| - 1 - i]
  {
    if |s| == 0 then [] else Reverse(s[1..]) + [s[0]]
  }

  /** Every element satisfies either `p` or its negation. */
  lemma {:induction false} CountComplement<T>(p: T -> bool, s: seq<T>)
    ensures Count(p, s) + Count(Not(p), s) == |s|
  {
    if |s| > 0 {
      CountComplement(p, s[1..]);
    }
  }

  /** A count is positive exactly when some element is counted. */
  lemma {:induction false} CountPositive<T>(p: T -> bool, s: seq<T>)
    ensures Count(p, s) > 0 <==> exists i :: 0 <= i < |s| && p(s[i])
  {
    if |s| > 0 {
      CountPositive(p, s[1..]);
      if Count(p, s[1..]) > 0 {
        var i :| 0 <= i < |s[1..]| && p(s[1..][i]);
        assert p(s[i + 1]);
      } else if !p(s[0]) {
        forall i | 0 <= i < |s| ensures !p(s[i]) {
          if i > 0 {
            assert s[i] == s[1..][i - 1];
          }
        }
      }
    }
  }

  /** A subsequence all of whose elements satisfy `p` picks at most the
      elements of `s` that satisfy `p`. */
  lemma {:induction false} SubsequenceCountBound<T>(p: T -> bool, r: seq<T>, s: seq<T>)
    requires Subsequence(r, s)
    requires forall i :: 0 <= i < |r| ==> p(r[i])
    ensures |r| <= Count(p, s)
    decreases |s|
  {
    if |r| > 0 {
      if r[0] == s[0] {
        SubsequenceCountBound(p, r[1..], s[1..]);
      } else {
        SubsequenceCountBound(p, r, s[1..]);
      }
    }
  }

  /** `Filter` is the only subsequence made of elements satisfying `p` that
      is as long as the number of such elements in `s`. */
  lemma {:induction false} FilterUnique<T>(p: T -> bool, r: seq<T>, s: seq<T>)
    requires Subsequence(r, s)
    requires forall i :: 0 <= i < |r| ==> p(r[i])
    requires |r| == Count(p, s)
    ensures r == Filter(p, s)
    decreases |s|
  {
    if |s| == 0 {
    } else if p(s[0]) {
      if |r| == 0 {
      } else if r[0] == s[0] {
        FilterUnique(p, r[1..], s[1..]);
        assert r == [r[0]] + r[1..];
      } else {
        SubsequenceCountBound(p, r, s[1..]);
      }
    } else {
      FilterUnique(p, r, s[1..]);
    }
  }

  /** Filtering twice with the same predicate changes nothing. */
  lemma FilterIdempotent<T>(p: T -> bool, s: seq<T>)
    ensures Filter(p, Filter(p, s)) == Filter(p, s)
  {
  }

  /** A subsequence has no more elements satisfying `p` than the sequence. */
  lemma {:induction false} SubsequenceCountMono<T>(p: T -> bool, r: seq<T>, s: seq<T>)
    requires Subsequence(r, s)
    ensures Count(p, r) <= Count(p, s)
    decreases |s|
  {
    if |r| > 0 {
      if r[0] == s[0] {
        SubsequenceCountMono(p, r[1..], s[1..]);
      } else {
        SubsequenceCountMono(p, r, s[1..]);
      }
    }
  }
}
