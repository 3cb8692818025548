/** Sequence helpers shared by the pipeline and the jurisdiction checks:
    order-preserving de-duplication (pandas `unique()`), filtering, counting and sums. */
module Seqs {

  /** No element occurs twice. */
  ghost predicate NoDups<T>(s: seq<T>) {
    forall i, j :: 0 <= i < j < |s| ==> s[i] != s[j]
  }

  /** The distinct elements of `s` in order of first appearance, as pandas' `unique()` returns them. */
  function Distinct<T(==,!new)>(s: seq<T>): (r: seq<T>)
    ensures forall x :: x in r <==> x in s
    ensures NoDups(r)
    ensures |r| <= |s|
    decreases |s|
  {
    if |s| == 0 then []
    else
      var p := Distinct(s[..|s| - 1]);
      if s[|s| - 1] in p then p else p + [s[|s| - 1]]
  }

  /** The elements of `s` that satisfy `p`, in their original order. */
  function Filter<T(!new)>(s: seq<T>, p: T -> bool): (r: seq<T>)
    ensures forall x :: x in r <==> x in s && p(x)
    ensures |r| <= |s|
    decreases |s|
  {
    if |s| == 0 then []
    else
      assert s == [s[0]] + s[1..];
      if p(s[0]) then [s[0]] + Filter(s[1..], p) else Filter(s[1..], p)
  }

  /** Filtering keeps a sequence free of duplicates. */
  lemma {:induction false} FilterNoDups<T(!new)>(s: seq<T>, p: T -> bool)
    requires NoDups(s)
    ensures NoDups(Filter(s, p))
    decreases |s|
  {
    if |s| > 0 {
      FilterNoDups(s[1..], p);
      assert s[0] !in s[1..];
    }
  }

  /** Filtering distributes over concatenation. */
  lemma {:induction false} FilterAppend<T(!new)>(a: seq<T>, b: seq<T>, p: T -> bool)
    ensures Filter(a + b, p) == Filter(a, p) + Filter(b, p)
    decreases |a|
  {
    if |a| > 0 {
      assert (a + b)[1..] == a[1..] + b;
      FilterAppend(a[1..], b, p);
    } else {
      assert a + b == b;
    }
  }

  /** Filtering keeps a sequence whose elements all pass. */
  lemma {:induction false} FilterAll<T(!new)>(s: seq<T>, p: T -> bool)
    requires forall i :: 0 <= i < |s| ==> p(s[i])
    ensures Filter(s, p) == s
    decreases |s|
  {
    if |s| > 0 {
      assert forall i :: 1 <= i < |s| ==> s[1..][i - 1] == s[i];
      FilterAll(s[1..], p);
    }
  }

  /** Filtering empties a sequence whose elements all fail. */
  lemma {:induction false} FilterNone<T(!new)>(s: seq<T>, p: T -> bool)
    requires forall i :: 0 <= i < |s| ==> !p(s[i])
    ensures Filter(s, p) == []
    decreases |s|
  {
    if |s| > 0 {
      assert forall i :: 1 <= i < |s| ==> s[1..][i - 1] == s[i];
      FilterNone(s[1..], p);
    }
  }

  /** Filtering by two predicates where they agree on every element gives the same result. */
  lemma {:induction false} FilterSame<T(!new)>(s: seq<T>, p: T -> bool, q: T -> bool)
    requires forall x :: x in s ==> p(x) == q(x)
    ensures Filter(s, p) == Filter(s, q)
    decreases |s|
  {
    if |s| > 0 {
      assert forall x :: x in s[1..] ==> x in s;
      FilterSame(s[1..], p, q);
    }
  }

  /** Filtering twice is filtering once by both predicates together. */
  lemma {:induction false} FilterTwice<T(!new)>(s: seq<T>, p: T -> bool, q: T -> bool, both: T -> bool)
    requires forall x :: x in s ==> both(x) == (p(x) && q(x))
    ensures Filter(Filter(s, p), q) == Filter(s, both)
    decreases |s|
  {
    if |s| > 0 {
      assert forall x :: x in s[1..] ==> x in s;
      FilterTwice(s[1..], p, q, both);
      if p(s[0]) {
        FilterCons(s[0], Filter(s[1..], p), q);
      }
    }
  }

  /** Filtering an element in front of a sequence. */
  lemma FilterCons<T(!new)>(x: T, s: seq<T>, p: T -> bool)
    ensures Filter([x] + s, p) == (if p(x) then [x] + Filter(s, p) else Filter(s, p))
  {
    assert ([x] + s)[1..] == s;
  }

  /** The positions of the elements of `s` that satisfy `p`, in increasing order. */
  ghost function Positions<T>(s: seq<T>, p: T -> bool): seq<nat>
    decreases |s|
  {
    if |s| == 0 then []
    else Positions(s[..|s| - 1], p) + (if p(s[|s| - 1]) then [|s| - 1] else [])
  }

  lemma {:induction false} PositionsMatch<T(!new)>(s: seq<T>, p: T -> bool)
    ensures var pos := Positions(s, p);
      |pos| == |Filter(s, p)| && forall i :: 0 <= i < |pos| ==> pos[i] < |s| && s[pos[i]] == Filter(s, p)[i]
    decreases |s|
  {
    if |s| > 0 {
      var init, last := s[..|s| - 1], s[|s| - 1];
      PositionsMatch(init, p);
      assert s == init + [last];
      FilterAppend(init, [last], p);
      assert [last][1..] == [];
      var prev, pos := Positions(init, p), Positions(s, p);
      var f, g := Filter(init, p), Filter([last], p);
      forall i | 0 <= i < |pos|
        ensures pos[i] < |s| && s[pos[i]] == Filter(s, p)[i]
      {
        if i < |prev| {
          assert pos[i] == prev[i] && s[prev[i]] == init[prev[i]] == f[i];
        } else {
          assert pos[i] == |s| - 1 && g == [last];
        }
      }
    }
  }

  lemma {:induction false} PositionsIncreasing<T>(s: seq<T>, p: T -> bool)
    ensures forall i :: 0 <= i < |Positions(s, p)| ==> Positions(s, p)[i] < |s|
    ensures forall i, j :: 0 <= i < j < |Positions(s, p)| ==> Positions(s, p)[i] < Positions(s, p)[j]
    decreases |s|
  {
    if |s| > 0 {
      var init := s[..|s| - 1];
      PositionsIncreasing(init, p);
      var prev, pos := Positions(init, p), Positions(s, p);
      assert forall i :: 0 <= i < |prev| ==> pos[i] == prev[i];
      forall i, j | 0 <= i < j < |pos|
        ensures pos[i] < pos[j]
      {
        if j < |prev| {
          assert prev[i] < prev[j];
        }
      }
    }
  }

  lemma {:induction false} PositionsComplete<T>(s: seq<T>, p: T -> bool)
    ensures forall k :: 0 <= k < |s| && p(s[k]) ==> k in Positions(s, p)
    decreases |s|
  {
    if |s| > 0 {
      var init := s[..|s| - 1];
      PositionsComplete(init, p);
      forall k | 0 <= k < |s| && p(s[k])
        ensures k in Positions(s, p)
      {
        if k < |init| {
          assert init[k] == s[k];
        }
      }
    }
  }

  /** Filtering keeps the order: the result lists, at increasing positions of `s`, exactly the
      elements of `s` that pass. */
  lemma FilterPositions<T(!new)>(s: seq<T>, p: T -> bool) returns (pos: seq<nat>)
    ensures |pos| == |Filter(s, p)|
    ensures forall i :: 0 <= i < |pos| ==> pos[i] < |s| && s[pos[i]] == Filter(s, p)[i]
    ensures forall i, j :: 0 <= i < j < |pos| ==> pos[i] < pos[j]
    ensures forall k :: 0 <= k < |s| && p(s[k]) ==> k in pos
  {
    pos := Positions(s, p);
    PositionsMatch(s, p);
    PositionsIncreasing(s, p);
    PositionsComplete(s, p);
  }

  /** Filtering four elements of which only the last fails. */
  lemma FilterLastFails<T(!new)>(w: T, x: T, y: T, z: T, p: T -> bool)
    requires p(w) && p(x) && p(y) && !p(z)
    ensures Filter([w, x, y, z], p) == [w, x, y]
  {
    var s := [w, x, y, z];
    assert s[3..][1..] == [] && s[3..][0] == z;
    assert Filter(s[3..], p) == [];
    assert s[2..][1..] == s[3..] && s[2..][0] == y;
    assert Filter(s[2..], p) == [y];
    assert s[1..][1..] == s[2..] && s[1..][0] == x;
    assert Filter(s[1..], p) == [x, y];
  }

  /** The first `n` elements, or all of them when there are fewer (Python's `s[0:n]`). */
  function Take<T>(s: seq<T>, n: nat): (r: seq<T>)
    ensures |r| == (if n < |s| then n else |s|)
    ensures r == s[..|r|]
  {
    if n < |s| then s[..n] else s
  }

  /** Length of Python's slice `s[:n]` of a sequence of length `len`: a negative `n` counts
      from the end. */
  function SliceEnd(len: nat, n: int): (e: nat)
    ensures e <= len
    ensures n >= 0 ==> e == (if n < len then n else len)
    ensures n < 0 ==> e == (if len + n > 0 then len + n else 0)
  {
    if n >= len then len else if n >= 0 then n else if len + n > 0 then len + n else 0
  }

  /** Python's `s[:n]` for any integer `n`. */
  function SliceTo<T>(s: seq<T>, n: int): (r: seq<T>)
    ensures |r| == SliceEnd(|s|, n) && r == s[..|r|]
  {
    s[..SliceEnd(|s|, n)]
  }

  /** A duplicate-free sequence holds each element at most once. */
  lemma {:induction false} NoDupsMultiplicity<T>(s: seq<T>, x: T)
    requires NoDups(s)
    ensures multiset(s)[x] <= 1
    decreases |s|
  {
    if |s| > 0 {
      assert s == [s[0]] + s[1..];
      NoDupsMultiplicity(s[1..], x);
      assert s[0] !in s[1..];
    }
  }

  /** A reordering of a duplicate-free sequence is duplicate-free. */
  lemma NoDupsPermutation<T>(a: seq<T>, b: seq<T>)
    requires NoDups(a) && multiset(a) == multiset(b)
    ensures NoDups(b)
  {
    forall i, j | 0 <= i < j < |b| ensures b[i] != b[j] {
      if b[i] == b[j] {
        var x := b[i];
        assert b == b[..j] + [b[j]] + b[j + 1..];
        assert x in b[..j];
        assert multiset(b)[x] >= 2;
        NoDupsMultiplicity(a, x);
        assert false;
      }
    }
  }

  /** Position of the first occurrence of `x` (Python's `list.index`). */
  function IndexOf<T(==)>(s: seq<T>, x: T): (i: nat)
    requires x in s
    ensures i < |s| && s[i] == x && x !in s[..i]
    decreases |s|
  {
    if s[0] == x then 0
    else
      assert x in s[1..];
      var j := IndexOf(s[1..], x);
      assert s[..j + 1] == [s[0]] + s[1..][..j];
      j + 1
  }

  /** The concatenation of a sequence of blocks, in order. */
  function Concat<T>(bs: seq<seq<T>>): seq<T>
    decreases |bs|
  {
    if |bs| == 0 then [] else Concat(bs[..|bs| - 1]) + bs[|bs| - 1]
  }

  lemma ConcatStep<T>(bs: seq<seq<T>>, k: nat)
    requires k < |bs|
    ensures Concat(bs[..k + 1]) == Concat(bs[..k]) + bs[k]
  {
    assert bs[..k + 1][..k] == bs[..k];
  }

  /** `f` applied to every element, in order. */
  function MapSeq<A, B>(s: seq<A>, f: A -> B): (r: seq<B>)
    ensures |r| == |s| && forall i :: 0 <= i < |s| ==> r[i] == f(s[i])
  {
    seq(|s|, i requires 0 <= i < |s| => f(s[i]))
  }

  /** The `pd.concat` accumulator loop: the block of every key, one after the other. */
  method ConcatMap<A, B>(keys: seq<A>, block: A -> seq<B>) returns (r: seq<B>)
    ensures r == Concat(MapSeq(keys, block))
  {
    ghost var bs := MapSeq(keys, block);
    r := [];
    var k := 0;
    while k < |keys|
      invariant k <= |keys|
      invariant r == Concat(bs[..k])
    {
      ConcatStep(bs, k);
      r := r + block(keys[k]);
      k := k + 1;
    }
    assert bs[..k] == bs;
  }

  /** An element of a concatenation comes from one of its blocks. */
  lemma {:induction false} ConcatMember<T>(bs: seq<seq<T>>, x: T) returns (k: nat)
    requires x in Concat(bs)
    ensures k < |bs| && x in bs[k]
    decreases |bs|
  {
    if x in Concat(bs[..|bs| - 1]) {
      k := ConcatMember(bs[..|bs| - 1], x);
    } else {
      k := |bs| - 1;
    }
  }

  /** An element of a block is an element of the concatenation. */
  lemma {:induction false} ConcatContains<T>(bs: seq<seq<T>>, k: nat, x: T)
    requires k < |bs| && x in bs[k]
    ensures x in Concat(bs)
    decreases |bs|
  {
    if k < |bs| - 1 {
      ConcatContains(bs[..|bs| - 1], k, x);
    }
  }

  /** Number of occurrences of `x` in `s`. */
  function Count<T(==)>(s: seq<T>, x: T): nat
    decreases |s|
  {
    if |s| == 0 then 0 else (if s[0] == x then 1 else 0) + Count(s[1..], x)
  }

  lemma {:induction false} CountPositive<T>(s: seq<T>, x: T)
    ensures Count(s, x) > 0 <==> x in s
    decreases |s|
  {
    if |s| > 0 {
      CountPositive(s[1..], x);
    }
  }

  /** A duplicate-free sequence has as many distinct elements as it has positions. */
  lemma {:induction false} NoDupsCardinality<T>(s: seq<T>)
    requires NoDups(s)
    ensures |set x | x in s| == |s|
    decreases |s|
  {
    if |s| > 0 {
      NoDupsCardinality(s[1..]);
      assert (set x | x in s) == (set x | x in s[1..]) + {s[0]};
      assert s[0] !in s[1..];
    }
  }

  /** A sequence has no more distinct elements than positions. */
  lemma {:induction false} CardinalityAtMost<T>(s: seq<T>)
    ensures |set x | x in s| <= |s|
    decreases |s|
  {
    if |s| > 0 {
      CardinalityAtMost(s[1..]);
      assert (set x | x in s) == (set x | x in s[1..]) + {s[0]};
    }
  }

  /** A subset is no larger than its superset. */
  lemma SubsetCardinality<T>(a: set<T>, b: set<T>)
    requires a <= b
    ensures |a| <= |b|
  {
    assert b == a + (b - a);
  }

  /** Sum of a sequence of reals. */
  function Sum(s: seq<real>): real
    decreases |s|
  {
    if |s| == 0 then 0.0 else s[0] + Sum(s[1..])
  }

  /** Every element divided by `c`. */
  function Scale(s: seq<real>, c: real): (r: seq<real>)
    requires c != 0.0
    ensures |r| == |s| && forall i :: 0 <= i < |s| ==> r[i] == s[i] / c
  {
    seq(|s|, i requires 0 <= i < |s| => s[i] / c)
  }

  /** Dividing every element by `c` divides the sum by `c`. */
  lemma {:induction false} SumScale(s: seq<real>, c: real)
    requires c != 0.0
    ensures Sum(Scale(s, c)) == Sum(s) / c
    decreases |s|
  {
    if |s| > 0 {
      SumScale(s[1..], c);
      assert Scale(s, c)[1..] == Scale(s[1..], c);
      assert s[0] / c + Sum(s[1..]) / c == (s[0] + Sum(s[1..])) / c;
    }
  }

  /** A sum of non-negative reals is non-negative, and positive once one term is. */
  lemma {:induction false} SumPositive(s: seq<real>, k: nat)
    requires forall i :: 0 <= i < |s| ==> s[i] >= 0.0
    requires k < |s| && s[k] > 0.0
    ensures Sum(s) > 0.0
    decreases |s|
  {
    if k == 0 {
      SumNonNegative(s[1..]);
    } else {
      SumPositive(s[1..], k - 1);
    }
  }

  lemma {:induction false} SumNonNegative(s: seq<real>)
    requires forall i :: 0 <= i < |s| ==> s[i] >= 0.0
    ensures Sum(s) >= 0.0
    decreases |s|
  {
    if |s| > 0 {
      SumNonNegative(s[1..]);
    }
  }
}
