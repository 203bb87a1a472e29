/** `Array.prototype.filter` on sequences and the facts the pages rely on. */
module Seqs {

  /** The elements of `s` that satisfy `p`, in their original order. */
  function Filter<T>(p: T -> bool, s: seq<T>): (r: seq<T>)
    ensures |r| <= |s|
    ensures forall i :: 0 <= i < |r| ==> r[i] in s && p(r[i])
    ensures forall i :: 0 <= i < |s| && p(s[i]) ==> s[i] in r
    decreases |s|
  {
    if s == [] then []
    else Filter(p, s[..|s| - 1]) + (if p(s[|s| - 1]) then [s[|s| - 1]] else [])
  }

  /** Filtering distributes over concatenation, so relative order is kept. */
  lemma {:induction false} FilterAppend<T>(p: T -> bool, a: seq<T>, b: seq<T>)
    ensures Filter(p, a + b) == Filter(p, a) + Filter(p, b)
    decreases |b|
  {
    if b != [] {
      var b' := b[..|b| - 1];
      assert (a + b)[..|a + b| - 1] == a + b';
      FilterAppend(p, a, b');
    } else {
      assert a + b == a;
    }
  }

  /** Each element keeps all its occurrences when it passes `p` and loses all of them otherwise. */
  lemma {:induction false} FilterMultiset<T>(p: T -> bool, s: seq<T>)
    ensures forall x :: multiset(Filter(p, s))[x] == if p(x) then multiset(s)[x] else 0
    decreases |s|
  {
    if s != [] {
      var s' := s[..|s| - 1];
      assert s == s' + [s[|s| - 1]];
      FilterMultiset(p, s');
    }
  }

  /** When every element passes, nothing is removed. */
  lemma {:induction false} FilterAllPass<T>(p: T -> bool, s: seq<T>)
    requires forall i :: 0 <= i < |s| ==> p(s[i])
    ensures Filter(p, s) == s
    decreases |s|
  {
    if s != [] {
      var s' := s[..|s| - 1];
      FilterAllPass(p, s');
      assert s == s' + [s[|s| - 1]];
    }
  }

  lemma FilterIdempotent<T>(p: T -> bool, s: seq<T>)
    ensures Filter(p, Filter(p, s)) == Filter(p, s)
  {
    var r := Filter(p, s);
    FilterAllPass(p, r);
  }

  /** The positions of `s` whose element satisfies `p`. */
  ghost function IndicesWhere<T>(p: T -> bool, s: seq<T>): set<nat> {
    set i: nat | i < |s| && p(s[i])
  }

  /** Extending `s` by one element adds its position exactly when it passes. */
  lemma IndicesWhereSnoc<T>(p: T -> bool, s: seq<T>)
    requires s != []
    ensures |s| - 1 !in IndicesWhere(p, s[..|s| - 1])
    ensures IndicesWhere(p, s)
         == IndicesWhere(p, s[..|s| - 1]) + (if p(s[|s| - 1]) then {|s| - 1} else {})
  {
    var n := |s| - 1;
    forall i: nat | i < n
      ensures s[..n][i] == s[i]
    {
    }
  }

  /** The length of the filtered sequence is the number of positions that pass. */
  lemma {:induction false} FilterLengthCountsIndices<T>(p: T -> bool, s: seq<T>)
    ensures |Filter(p, s)| == |IndicesWhere(p, s)|
    decreases |s|
  {
    if s == [] {
      assert IndicesWhere(p, s) == {};
    } else {
      FilterLengthCountsIndices(p, s[..|s| - 1]);
      IndicesWhereSnoc(p, s);
    }
  }
}
