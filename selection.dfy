/**
 * Order-preserving selection from a sequence: the meaning of a Python list
 * comprehension `[x for x in s if keep(x)]`, which every query of the task
 * engine is.
 */
module Selection {

  /** `r` appears in `s` in the same order, possibly with gaps. Matching the
      head of `r` against the first equal element of `s` is complete. */
  predicate IsSubsequence<T(==,!new)>(r: seq<T>, s: seq<T>)
    decreases |s|
  {
    if r == [] then true
    else if s == [] then false
    else if r[0] == s[0] then IsSubsequence(r[1..], s[1..])
    else IsSubsequence(r, s[1..])
  }

  /** `r` holds exactly the elements of `s` that satisfy `keep`, each as often
      as in `s`, and in the order of `s`. */
  ghost predicate Selects<T(!new)>(r: seq<T>, s: seq<T>, keep: T -> bool) {
    IsSubsequence(r, s) &&
    forall x :: multiset(r)[x] == if keep(x) then multiset(s)[x] else 0
  }

  /** The list comprehension `[x for x in s if keep(x)]`. */
  function Filter<T(==,!new)>(s: seq<T>, keep: T -> bool): (r: seq<T>)
    ensures |r| <= |s|
    ensures forall x :: x in r <==> x in s && keep(x)
  {
    if s == [] then []
    else if keep(s[0]) then [s[0]] + Filter(s[1..], keep)
    else Filter(s[1..], keep)
  }

  /** The comprehension selects exactly the kept elements, in order. */
  lemma {:induction false} FilterSelects<T(!new)>(s: seq<T>, keep: T -> bool)
    ensures Selects(Filter(s, keep), s, keep)
    decreases |s|
  {
    if s != [] {
      FilterSelects(s[1..], keep);
      assert s == [s[0]] + s[1..];
      var r := Filter(s, keep);
      if keep(s[0]) {
        assert r[0] == s[0] && r[1..] == Filter(s[1..], keep);
      } else if r != [] {
        assert keep(r[0]) && r[0] != s[0];
      }
    }
  }

  /** A subsequence takes no element more often than the sequence has it. */
  lemma {:induction false} SubsequenceMultiset<T(!new)>(r: seq<T>, s: seq<T>)
    requires IsSubsequence(r, s)
    ensures multiset(r) <= multiset(s)
    decreases |s|
  {
    if r != [] {
      assert s == [s[0]] + s[1..];
      if r[0] == s[0] {
        assert r == [r[0]] + r[1..];
        SubsequenceMultiset(r[1..], s[1..]);
      } else {
        SubsequenceMultiset(r, s[1..]);
      }
    }
  }

  /** `Selects` determines its result: the comprehension is the only sequence
      that satisfies it. */
  lemma {:induction false} SelectsOnlyFilter<T(!new)>(r: seq<T>, s: seq<T>, keep: T -> bool)
    requires Selects(r, s, keep)
    ensures r == Filter(s, keep)
    decreases |s|
  {
    if s == [] {
      assert multiset(r) == multiset{};
    } else {
      var x, tail := s[0], s[1..];
      assert s == [x] + tail;
      if r != [] && r[0] == x {
        assert r == [x] + r[1..];
        assert keep(x);
        SelectsOnlyFilter(r[1..], tail, keep);
      } else {
        assert IsSubsequence(r, tail);
        if keep(x) {
          SubsequenceMultiset(r, tail);
          assert false;
        }
        assert forall y :: multiset(r)[y] == if keep(y) then multiset(tail)[y] else 0;
        SelectsOnlyFilter(r, tail, keep);
      }
    }
  }

  /** Filtering distributes over concatenation. */
  lemma {:induction false} FilterAppend<T(!new)>(a: seq<T>, b: seq<T>, keep: T -> bool)
    ensures Filter(a + b, keep) == Filter(a, keep) + Filter(b, keep)
    decreases |a|
  {
    if a == [] {
      assert a + b == b;
    } else {
      var ab := a + b;
      assert ab[0] == a[0] && ab[1..] == a[1..] + b;
      FilterAppend(a[1..], b, keep);
      if keep(a[0]) {
        calc {
          Filter(ab, keep);
          [a[0]] + Filter(a[1..] + b, keep);
          [a[0]] + (Filter(a[1..], keep) + Filter(b, keep));
          ([a[0]] + Filter(a[1..], keep)) + Filter(b, keep);
        }
      }
    }
  }

  /** Extending the input by one element extends the selection by that element
      exactly when it is kept. */
  lemma FilterSnoc<T(!new)>(s: seq<T>, x: T, keep: T -> bool)
    ensures Filter(s + [x], keep) == Filter(s, keep) + (if keep(x) then [x] else [])
  {
    FilterAppend(s, [x], keep);
    assert Filter([x], keep) == (if keep(x) then [x] else []) by {
      assert [x][1..] == [];
    }
  }

  /** The comprehension over a four-element list, one element at a time. */
  lemma FilterOfFour<T(!new)>(a: T, b: T, c: T, d: T, keep: T -> bool)
    ensures Filter([a, b, c, d], keep) ==
      (if keep(a) then [a] else []) + (if keep(b) then [b] else []) +
      (if keep(c) then [c] else []) + (if keep(d) then [d] else [])
  {
    assert [a, b, c] + [d] == [a, b, c, d] && [a, b] + [c] == [a, b, c] && [a] + [b] == [a, b];
    FilterSnoc([a, b, c], d, keep);
    FilterSnoc([a, b], c, keep);
    FilterSnoc([a], b, keep);
    assert Filter([a], keep) == if keep(a) then [a] else [];
  }

  /** When every element is kept the comprehension returns its input unchanged. */
  lemma {:induction false} FilterKeepsAll<T(!new)>(s: seq<T>, keep: T -> bool)
    requires forall x :: x in s ==> keep(x)
    ensures Filter(s, keep) == s
    decreases |s|
  {
    if s != [] {
      FilterKeepsAll(s[1..], keep);
    }
  }

  /** Filtering twice by the same condition is filtering once. */
  lemma {:induction false} FilterIdempotent<T(!new)>(s: seq<T>, keep: T -> bool)
    ensures Filter(Filter(s, keep), keep) == Filter(s, keep)
  {
    FilterKeepsAll(Filter(s, keep), keep);
  }

  /** Filtering by a narrower condition after a wider one is filtering by the
      narrower one alone; so the narrow selection is never longer. */
  lemma {:induction false} FilterNarrower<T(!new)>(s: seq<T>, narrow: T -> bool, wide: T -> bool)
    requires forall x :: narrow(x) ==> wide(x)
    ensures Filter(Filter(s, wide), narrow) == Filter(s, narrow)
    ensures |Filter(s, narrow)| <= |Filter(s, wide)|
    decreases |s|
  {
    if s != [] {
      FilterNarrower(s[1..], narrow, wide);
    }
  }

  /** Each element is either kept by `keep` or kept by its negation. */
  lemma {:induction false} FilterComplementLength<T(!new)>(s: seq<T>, keep: T -> bool, drop: T -> bool)
    requires forall x :: drop(x) == !keep(x)
    ensures |Filter(s, keep)| + |Filter(s, drop)| == |s|
    decreases |s|
  {
    if s != [] {
      FilterComplementLength(s[1..], keep, drop);
    }
  }
}
