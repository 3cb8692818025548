/** Descending sorts as the pipeline uses them (`sort_values(..., ascending=False)`):
    a key of up to two components, a missing value (pandas NaN) ordered last, and ties kept
    in input order. */
module Ranking {

  import Seqs

  /** One sort-key component: a number, or Missing for NaN. */
  datatype Rank = Missing | Value(v: real)

  /** `a` may precede `b` in a descending order with NaN last. */
  predicate RankAtLeast(a: Rank, b: Rank) {
    b.Missing? || (a.Value? && a.v >= b.v)
  }

  /** A two-column sort key, compared column by column. */
  datatype Key = Key(major: Rank, minor: Rank)

  predicate KeyAtLeast(a: Key, b: Key) {
    if a.major == b.major then RankAtLeast(a.minor, b.minor) else RankAtLeast(a.major, b.major)
  }

  /** A key of one column. */
  function Single(r: Rank): Key {
    Key(r, Missing)
  }

  /** A real number as a one-column key. */
  function ByValue(): real -> Key {
    (v: real) => Single(Value(v))
  }

  lemma KeyAtLeastTotal(a: Key, b: Key)
    ensures KeyAtLeast(a, b) || KeyAtLeast(b, a)
  {
  }

  lemma KeyAtLeastTransitive(a: Key, b: Key, c: Key)
    requires KeyAtLeast(a, b) && KeyAtLeast(b, c)
    ensures KeyAtLeast(a, c)
  {
  }

  /** Every element's key is at least that of every later element. */
  ghost predicate SortedDesc<T>(s: seq<T>, key: T -> Key) {
    forall i, j :: 0 <= i < j < |s| ==> KeyAtLeast(key(s[i]), key(s[j]))
  }

  /** Inserts `x` in front of the first element whose key is not larger than its own. */
  function Insert<T>(x: T, s: seq<T>, key: T -> Key): (r: seq<T>)
    requires SortedDesc(s, key)
    ensures SortedDesc(r, key)
    ensures multiset(r) == multiset(s) + multiset{x}
    decreases |s|
  {
    if |s| == 0 then [x]
    else if KeyAtLeast(key(x), key(s[0])) then
      assert forall j :: 0 <= j < |s| ==> KeyAtLeast(key(x), key(s[j])) by {
        forall j | 0 <= j < |s| ensures KeyAtLeast(key(x), key(s[j])) {
          if j > 0 { KeyAtLeastTransitive(key(x), key(s[0]), key(s[j])); }
        }
      }
      [x] + s
    else
      var t := Insert(x, s[1..], key);
      assert s == [s[0]] + s[1..];
      assert forall j :: 0 <= j < |t| ==> KeyAtLeast(key(s[0]), key(t[j])) by {
        forall j | 0 <= j < |t| ensures KeyAtLeast(key(s[0]), key(t[j])) {
          assert t[j] in multiset(t);
          if t[j] != x {
            assert t[j] in multiset(s[1..]);
            var k :| 0 <= k < |s[1..]| && s[1..][k] == t[j];
            assert s[k + 1] == t[j];
          } else {
            KeyAtLeastTotal(key(x), key(s[0]));
          }
        }
      }
      [s[0]] + t
  }

  /** Stable insertion sort, largest key first. */
  function SortDesc<T>(s: seq<T>, key: T -> Key): (r: seq<T>)
    ensures SortedDesc(r, key)
    ensures multiset(r) == multiset(s)
    ensures |r| == |s|
    decreases |s|
  {
    if |s| == 0 then []
    else
      assert s == [s[0]] + s[1..];
      Insert(s[0], SortDesc(s[1..], key), key)
  }

  /** A sequence whose neighbours are in order is sorted. */
  lemma {:induction false} SortedByNeighbours<T>(s: seq<T>, key: T -> Key)
    requires forall i :: 0 <= i < |s| - 1 ==> KeyAtLeast(key(s[i]), key(s[i + 1]))
    ensures SortedDesc(s, key)
    decreases |s|
  {
    if |s| > 1 {
      SortedByNeighbours(s[1..], key);
      forall j | 1 < j < |s| ensures KeyAtLeast(key(s[0]), key(s[j])) {
        KeyAtLeastTransitive(key(s[0]), key(s[1]), key(s[j]));
      }
    }
  }

  /** Four elements in order pairwise are in order. */
  lemma SortedFour<T>(w: T, x: T, y: T, z: T, key: T -> Key)
    requires KeyAtLeast(key(w), key(x)) && KeyAtLeast(key(x), key(y)) && KeyAtLeast(key(y), key(z))
    ensures SortedDesc([w, x, y, z], key)
  {
    var s := [w, x, y, z];
    forall i | 0 <= i < |s| - 1 ensures KeyAtLeast(key(s[i]), key(s[i + 1])) {
    }
    SortedByNeighbours(s, key);
  }

  /** Elements of a sequence and of any permutation of it coincide. */
  lemma SameElements<T>(a: seq<T>, b: seq<T>, x: T)
    requires multiset(a) == multiset(b)
    ensures x in a <==> x in b
  {
    assert x in a <==> x in multiset(a);
    assert x in b <==> x in multiset(b);
  }

  /** In a sorted sequence, an element that lies past position `k` is not larger than any
      element before `k`. */
  lemma SortedPrefix<T>(s: seq<T>, key: T -> Key, k: nat, x: T, y: T)
    requires SortedDesc(s, key) && k <= |s|
    requires x in s[..k] && y in s[k..]
    ensures KeyAtLeast(key(x), key(y))
  {
    var i :| 0 <= i < k && s[i] == x;
    var j :| 0 <= j < |s| - k && s[k..][j] == y;
    assert s[k + j] == y;
  }

  /** In a sorted sequence, what the first `n` elements hold is at least what is left out. */
  lemma TakeLeads<T>(s: seq<T>, key: T -> Key, n: nat, x: T, y: T)
    requires SortedDesc(s, key)
    requires x in Seqs.Take(s, n) && y in s && y !in Seqs.Take(s, n)
    ensures KeyAtLeast(key(x), key(y))
  {
    var t := Seqs.Take(s, n);
    assert s == t + s[|t|..];
    assert y in s[|t|..];
    SortedPrefix(s, key, |t|, x, y);
  }

  /** Filtering keeps a sequence sorted. */
  lemma {:induction false} FilterSorted<T(!new)>(s: seq<T>, p: T -> bool, key: T -> Key)
    requires SortedDesc(s, key)
    ensures SortedDesc(Seqs.Filter(s, p), key)
    decreases |s|
  {
    if |s| > 0 {
      FilterSorted(s[1..], p, key);
      var rest := Seqs.Filter(s[1..], p);
      if p(s[0]) {
        forall j | 0 <= j < |rest| ensures KeyAtLeast(key(s[0]), key(rest[j])) {
          assert rest[j] in s[1..];
          var k :| 0 <= k < |s[1..]| && s[1..][k] == rest[j];
          assert s[k + 1] == rest[j];
        }
      }
    }
  }

  /** Distinct reals in a descending order are strictly decreasing. */
  lemma StrictlyDecreasing(s: seq<real>, i: nat, j: nat)
    requires SortedDesc(s, ByValue())
    requires Seqs.NoDups(s)
    requires i < j < |s|
    ensures s[i] > s[j]
  {
    assert KeyAtLeast(ByValue()(s[i]), ByValue()(s[j]));
  }

  /** `sorted(set(xs), reverse=True)`: each value once, largest first. */
  function SortedSet(xs: seq<real>): (s: seq<real>)
    ensures Seqs.NoDups(s) && SortedDesc(s, ByValue())
    ensures forall x :: x in s <==> x in xs
  {
    var d := Seqs.Distinct(xs);
    var s := SortDesc(d, ByValue());
    Seqs.NoDupsPermutation(d, s);
    assert forall x :: x in s <==> x in d by {
      forall x ensures x in s <==> x in d {
        SameElements(d, s, x);
      }
    }
    s
  }

  lemma SortedSetSize(xs: seq<real>)
    ensures |SortedSet(xs)| == |set x | x in xs|
  {
    var s := SortedSet(xs);
    Seqs.NoDupsCardinality(s);
    assert (set x | x in s) == (set x | x in xs);
  }

  /** In a sorted set the values larger than the one at position `k` are those before it. */
  lemma LargerBefore(xs: seq<real>, k: nat)
    requires k < |SortedSet(xs)|
    ensures (set m | m in xs && m > SortedSet(xs)[k]) == (set m | m in SortedSet(xs)[..k])
  {
    var s := SortedSet(xs);
    forall m | m in s[..k] ensures m in xs && m > s[k] {
      var i :| 0 <= i < k && s[..k][i] == m;
      StrictlyDecreasing(s, i, k);
    }
    forall m | m in xs && m > s[k] ensures m in s[..k] {
      var i := Seqs.IndexOf(s, m);
      if k < i {
        StrictlyDecreasing(s, k, i);
      }
      assert s[..k][i] == m;
    }
  }

  /** `sorted(set(xs), reverse=True)[:n]` holds a value of `xs` exactly when fewer distinct
      values than the slice keeps are larger than it. */
  lemma TopRank(xs: seq<real>, n: int, x: real)
    requires x in xs
    ensures x in Seqs.SliceTo(SortedSet(xs), n)
        <==> |set m | m in xs && m > x| < Seqs.SliceEnd(|set m | m in xs|, n)
  {
    var s := SortedSet(xs);
    var k := Seqs.IndexOf(s, x);
    LargerBefore(xs, k);
    assert Seqs.NoDups(s[..k]);
    Seqs.NoDupsCardinality(s[..k]);
    SortedSetSize(xs);
    var top := Seqs.SliceTo(s, n);
    if k < |top| {
      assert top[k] == x;
    }
  }
}
