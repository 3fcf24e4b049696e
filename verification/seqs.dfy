/** Sequence combinators with the meaning of JavaScript's `Array.prototype.map`
    and `Array.prototype.filter`, which the dashboard's list operations are
    built from, together with the facts about them that those operations share. */
module Seqs {

  /** `a` occurs in `b` in order, possibly with gaps (matched greedily from the left). */
  ghost predicate IsSubsequence<T>(a: seq<T>, b: seq<T>)
    decreases |b|
  {
    if |a| == 0 then true
    else if |b| == 0 then false
    else if a[0] == b[0] then IsSubsequence(a[1..], b[1..])
    else IsSubsequence(a, b[1..])
  }

  /** The elements of a subsequence all occur in the sequence it is taken from. */
  lemma {:induction false} SubsequenceMembers<T>(a: seq<T>, b: seq<T>)
    requires IsSubsequence(a, b)
    ensures forall i :: 0 <= i < |a| ==> a[i] in b
    decreases |b|
  {
    if |a| > 0 {
      if a[0] == b[0] {
        SubsequenceMembers(a[1..], b[1..]);
        forall i | 0 < i < |a|
          ensures a[i] in b
        {
          assert a[i] == a[1..][i - 1];
        }
      } else {
        SubsequenceMembers(a, b[1..]);
      }
    }
  }

  /** `f` applied to every element, positions kept. */
  function Map<T, U>(s: seq<T>, f: T -> U): (r: seq<U>)
    ensures |r| == |s|
    ensures forall i :: 0 <= i < |s| ==> r[i] == f(s[i])
  {
    if |s| == 0 then [] else [f(s[0])] + Map(s[1..], f)
  }

  /** The elements of `s` that satisfy `p`, in their original order. */
  function Filter<T>(s: seq<T>, p: T -> bool): (r: seq<T>)
    ensures |r| <= |s|
    ensures forall i :: 0 <= i < |r| ==> p(r[i])
    ensures forall i :: 0 <= i < |s| && p(s[i]) ==> s[i] in r
    ensures IsSubsequence(r, s)
  {
    if |s| == 0 then []
    else
      var rest := Filter(s[1..], p);
      assert s == [s[0]] + s[1..];
      if p(s[0]) then
        assert ([s[0]] + rest)[1..] == rest;
        [s[0]] + rest
      else
        assert |rest| > 0 ==> rest[0] != s[0];
        rest
  }

  /** Filtering distributes over concatenation; with `FilterSingleton` this
      pins `Filter` down completely. */
  lemma {:induction false} FilterConcat<T>(a: seq<T>, b: seq<T>, p: T -> bool)
    ensures Filter(a + b, p) == Filter(a, p) + Filter(b, p)
    decreases |a|
  {
    if |a| == 0 {
      assert a + b == b;
    } else {
      assert (a + b)[0] == a[0];
      assert (a + b)[1..] == a[1..] + b;
      FilterConcat(a[1..], b, p);
    }
  }

  /** A one-element sequence is kept exactly when its element satisfies `p`. */
  lemma FilterSingleton<T>(x: T, p: T -> bool)
    ensures Filter([x], p) == if p(x) then [x] else []
  {
    assert [x][1..] == [];
  }

  /** When every element satisfies `p`, filtering changes nothing. */
  lemma {:induction false} FilterKeepsAll<T>(s: seq<T>, p: T -> bool)
    requires forall i :: 0 <= i < |s| ==> p(s[i])
    ensures Filter(s, p) == s
    decreases |s|
  {
    if |s| > 0 {
      FilterKeepsAll(s[1..], p);
      assert s == [s[0]] + s[1..];
    }
  }

  /** When no element satisfies `p`, nothing is kept. */
  lemma {:induction false} FilterKeepsNone<T>(s: seq<T>, p: T -> bool)
    requires forall i :: 0 <= i < |s| ==> !p(s[i])
    ensures Filter(s, p) == []
    decreases |s|
  {
    if |s| > 0 {
      FilterKeepsNone(s[1..], p);
    }
  }

  /** Filtering out one rejected element between two runs of accepted ones
      leaves exactly the two runs. */
  lemma FilterDropsOne<T>(front: seq<T>, x: T, back: seq<T>, p: T -> bool)
    requires forall i :: 0 <= i < |front| ==> p(front[i])
    requires forall i :: 0 <= i < |back| ==> p(back[i])
    requires !p(x)
    ensures Filter(front + [x] + back, p) == front + back
  {
    assert Filter(front + [x], p) == front by {
      FilterConcat(front, [x], p);
      FilterKeepsAll(front, p);
      FilterSingleton(x, p);
      assert front + [] == front;
    }
    assert Filter(back, p) == back by {
      FilterKeepsAll(back, p);
    }
    FilterConcat(front + [x], back, p);
  }

  /** Two predicates that agree on every element of `s` filter it alike. */
  lemma {:induction false} FilterCongruent<T>(s: seq<T>, p: T -> bool, q: T -> bool)
    requires forall i :: 0 <= i < |s| ==> p(s[i]) == q(s[i])
    ensures Filter(s, p) == Filter(s, q)
    decreases |s|
  {
    if |s| > 0 {
      FilterCongruent(s[1..], p, q);
    }
  }

  /** Filtering twice by the same predicate is filtering once. */
  lemma FilterIdempotent<T>(s: seq<T>, p: T -> bool)
    ensures Filter(Filter(s, p), p) == Filter(s, p)
  {
    FilterKeepsAll(Filter(s, p), p);
  }
}
