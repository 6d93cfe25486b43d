/** Order-preserving filtering of sequences: the model of Python's list
    comprehensions `[e for e in xs if p(e)]` and of `filter(p, xs)`. */
module Seqs {

  /** The elements of `s` that satisfy `p`, in their order in `s`. */
  function Filter<T>(s: seq<T>, p: T -> bool): (r: seq<T>)
    ensures |r| <= |s|
    ensures forall i :: 0 <= i < |r| ==> p(r[i])
  {
    if s == [] then []
    else
      var s', x := s[..|s| - 1], s[|s| - 1];
      assert s == s' + [x];
      Filter(s', p) + (if p(x) then [x] else [])
  }

  /** An element of `s` that satisfies `p` survives the filter. */
  lemma {:induction false} FilterKeeps<T>(s: seq<T>, p: T -> bool, i: nat)
    requires i < |s| && p(s[i])
    ensures s[i] in Filter(s, p)
  {
    if i < |s| - 1 {
      FilterKeeps(s[..|s| - 1], p, i);
    }
  }

  /** The filtered sequence is a sub-multiset of `s`. */
  lemma {:induction false} FilterSubMultiset<T>(s: seq<T>, p: T -> bool)
    ensures multiset(Filter(s, p)) <= multiset(s)
  {
    if s != [] {
      var s', x := s[..|s| - 1], s[|s| - 1];
      FilterSubMultiset(s', p);
      assert s == s' + [x];
    }
  }

  /** Every element of the filtered sequence comes from `s`. */
  lemma FilterFrom<T>(s: seq<T>, p: T -> bool, x: T)
    requires x in Filter(s, p)
    ensures x in s && p(x)
  {
    FilterSubMultiset(s, p);
    assert x in multiset(Filter(s, p));
  }

  /** Membership in the filtered sequence, both directions. */
  lemma FilterMember<T>(s: seq<T>, p: T -> bool, x: T)
    ensures x in Filter(s, p) <==> x in s && p(x)
  {
    if x in Filter(s, p) {
      FilterFrom(s, p, x);
    } else if x in s && p(x) {
      var i :| 0 <= i < |s| && s[i] == x;
      FilterKeeps(s, p, i);
    }
  }

  /** Filtering depends only on which elements the predicate selects. */
  lemma {:induction false} FilterCongruent<T>(s: seq<T>, p: T -> bool, q: T -> bool)
    requires forall x :: p(x) == q(x)
    ensures Filter(s, p) == Filter(s, q)
  {
    if s != [] {
      FilterCongruent(s[..|s| - 1], p, q);
    }
  }

  /** Filtering distributes over concatenation, so a left-to-right loop that
      appends the selected elements computes `Filter`. */
  lemma {:induction false} FilterAppend<T>(a: seq<T>, b: seq<T>, p: T -> bool)
    ensures Filter(a + b, p) == Filter(a, p) + Filter(b, p)
    decreases |b|
  {
    if b == [] {
      assert a + b == a;
    } else {
      var b' := b[..|b| - 1];
      assert (a + b)[..|a + b| - 1] == a + b';
      FilterAppend(a, b', p);
    }
  }

  /** One step of a left-to-right filtering loop. */
  lemma FilterStep<T>(s: seq<T>, p: T -> bool, i: nat)
    requires i < |s|
    ensures Filter(s[..i + 1], p) == Filter(s[..i], p) + (if p(s[i]) then [s[i]] else [])
  {
    assert s[..i + 1][..i] == s[..i];
  }

  /** Filtering with `p` and with its complement `q` splits `s` in two:
      the lengths add up and, as multisets, the two parts make up `s`. */
  lemma {:induction false} FilterComplement<T>(s: seq<T>, p: T -> bool, q: T -> bool)
    requires forall x :: q(x) == !p(x)
    ensures |Filter(s, p)| + |Filter(s, q)| == |s|
    ensures multiset(Filter(s, p)) + multiset(Filter(s, q)) == multiset(s)
  {
    if s != [] {
      var s', x := s[..|s| - 1], s[|s| - 1];
      FilterComplement(s', p, q);
      ComplementStep(s, p, q);
      assert multiset(s) == multiset(s') + multiset{x} by {
        assert s == s' + [x];
      }
    }
  }

  /** The last element of `s` goes to exactly one side of the split. */
  lemma ComplementStep<T>(s: seq<T>, p: T -> bool, q: T -> bool)
    requires s != [] && forall x :: q(x) == !p(x)
    ensures var s', x := s[..|s| - 1], s[|s| - 1];
      && |Filter(s, p)| + |Filter(s, q)| == |Filter(s', p)| + |Filter(s', q)| + 1
      && multiset(Filter(s, p)) + multiset(Filter(s, q))
         == multiset(Filter(s', p)) + multiset(Filter(s', q)) + multiset{x}
  {
    var s', x := s[..|s| - 1], s[|s| - 1];
    var fp, fq := Filter(s', p), Filter(s', q);
    if p(x) {
      assert multiset(Filter(s, p)) == multiset(fp) + multiset{x} by {
        assert Filter(s, p) == fp + [x];
      }
      assert Filter(s, q) == fq;
    } else {
      assert Filter(s, p) == fp;
      assert multiset(Filter(s, q)) == multiset(fq) + multiset{x} by {
        assert Filter(s, q) == fq + [x];
      }
    }
  }

  /** Filtering twice is filtering once with the conjunction. */
  lemma {:induction false} FilterFilter<T>(s: seq<T>, p: T -> bool, q: T -> bool, pq: T -> bool)
    requires forall x :: pq(x) == (p(x) && q(x))
    ensures Filter(Filter(s, p), q) == Filter(s, pq)
  {
    if s != [] {
      var s', x := s[..|s| - 1], s[|s| - 1];
      FilterFilter(s', p, q, pq);
      if p(x) {
        var f := Filter(s', p);
        assert Filter(s, p) == f + [x];
        assert (f + [x])[..|f + [x]| - 1] == f;
        assert Filter(f + [x], q) == Filter(f, q) + (if q(x) then [x] else []);
      } else {
        assert Filter(s, p) == Filter(s', p);
      }
    }
  }

  /** When every element satisfies `p`, filtering keeps the whole sequence. */
  lemma {:induction false} FilterAll<T>(s: seq<T>, p: T -> bool)
    requires forall x :: x in s ==> p(x)
    ensures Filter(s, p) == s
  {
    if s != [] {
      FilterAll(s[..|s| - 1], p);
      assert s == s[..|s| - 1] + [s[|s| - 1]];
    }
  }

  /** When no element satisfies `p`, filtering gives the empty sequence. */
  lemma {:induction false} FilterNone<T>(s: seq<T>, p: T -> bool)
    requires forall x :: x in s ==> !p(x)
    ensures Filter(s, p) == []
  {
    if s != [] {
      FilterNone(s[..|s| - 1], p);
    }
  }
}
