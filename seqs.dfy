/**
 * Order-preserving filtering of a sequence: the shape of every Go loop in the
 * balancer that walks a slice and appends the elements it keeps.
 */
module Seqs {

  /**
   * The elements of `s` that satisfy `keep`, in the order they occur in `s`.
   * Defined on prefixes, like a loop that appends to its result.
   */
  function Filter<T(==)>(s: seq<T>, keep: T -> bool): (r: seq<T>)
    ensures |r| <= |s|
    ensures forall x :: x in r ==> x in s && keep(x)
  {
    if |s| == 0 then []
    else Filter(s[..|s| - 1], keep) + (if keep(s[|s| - 1]) then [s[|s| - 1]] else [])
  }

  /** Filtering one more element appends it exactly when it is kept. */
  lemma FilterSnoc<T>(s: seq<T>, x: T, keep: T -> bool)
    ensures Filter(s + [x], keep) == Filter(s, keep) + (if keep(x) then [x] else [])
  {
    assert (s + [x])[..|s|] == s;
  }

  /** Filtering one element further into `s` appends that element exactly when it is kept. */
  lemma FilterPrefixStep<T>(s: seq<T>, i: nat, keep: T -> bool)
    requires i < |s|
    ensures Filter(s[..i + 1], keep) == Filter(s[..i], keep) + (if keep(s[i]) then [s[i]] else [])
  {
    assert s[..i + 1] == s[..i] + [s[i]];
    FilterSnoc(s[..i], s[i], keep);
  }

  /** Filtering distributes over concatenation, so the relative order of kept elements is preserved. */
  lemma {:induction false} FilterConcat<T>(a: seq<T>, b: seq<T>, keep: T -> bool)
    ensures Filter(a + b, keep) == Filter(a, keep) + Filter(b, keep)
    decreases |b|
  {
    if |b| == 0 {
      assert a + b == a;
    } else {
      var init, last := b[..|b| - 1], b[|b| - 1];
      var tail := if keep(last) then [last] else [];
      assert b == init + [last];
      assert a + b == (a + init) + [last];
      calc {
        Filter(a + b, keep);
        { FilterSnoc(a + init, last, keep); }
        Filter(a + init, keep) + tail;
        { FilterConcat(a, init, keep); }
        (Filter(a, keep) + Filter(init, keep)) + tail;
        Filter(a, keep) + (Filter(init, keep) + tail);
        { FilterSnoc(init, last, keep); }
        Filter(a, keep) + Filter(b, keep);
      }
    }
  }

  /** An element is in the filtered sequence exactly when it is in `s` and is kept. */
  lemma {:induction false} FilterMembership<T>(s: seq<T>, keep: T -> bool, x: T)
    ensures x in Filter(s, keep) <==> x in s && keep(x)
  {
    if |s| > 0 {
      var init, last := s[..|s| - 1], s[|s| - 1];
      assert s == init + [last];
      FilterMembership(init, keep, x);
    }
  }

  /** Each value occurs in the result as often as in `s` when it is kept, and never otherwise. */
  lemma {:induction false} FilterCount<T>(s: seq<T>, keep: T -> bool, x: T)
    ensures multiset(Filter(s, keep))[x] == if keep(x) then multiset(s)[x] else 0
  {
    if |s| > 0 {
      var init, last := s[..|s| - 1], s[|s| - 1];
      assert s == init + [last];
      FilterCount(init, keep, x);
    }
  }

  /** When every element is kept, filtering returns the sequence unchanged. */
  lemma {:induction false} FilterKeepsAll<T>(s: seq<T>, keep: T -> bool)
    requires forall i :: 0 <= i < |s| ==> keep(s[i])
    ensures Filter(s, keep) == s
  {
    if |s| > 0 {
      FilterKeepsAll(s[..|s| - 1], keep);
    }
  }

  /** Two predicates that agree on the elements of `s` filter it alike. */
  lemma {:induction false} FilterCongruent<T>(s: seq<T>, p: T -> bool, q: T -> bool)
    requires forall i :: 0 <= i < |s| ==> p(s[i]) == q(s[i])
    ensures Filter(s, p) == Filter(s, q)
  {
    if |s| > 0 {
      FilterCongruent(s[..|s| - 1], p, q);
    }
  }

}
