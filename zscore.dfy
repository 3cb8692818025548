/** The anomaly score of `euclidean_zscore`: for each vote-share vector, the sum of its
    distances to every vector of the population, turned into a standard score. The distance
    and the square root are floating-point library code, so they are parameters here. */
module ZScore {

  import opened Seqs

  type Vec = seq<real>

  /** The square root used for the standard deviation: positive on positive input. */
  type Root = f: real -> real | forall x :: 0.0 < x ==> 0.0 < f(x) witness (x: real) => x

  /** `[sum([dist(item, y) for y in li]) for item in li]`. */
  function DistanceSums(vs: seq<Vec>, dist: (Vec, Vec) -> real): (d: seq<real>)
    ensures |d| == |vs|
  {
    seq(|vs|, i requires 0 <= i < |vs| => Sum(seq(|vs|, j requires 0 <= j < |vs| => dist(vs[i], vs[j]))))
  }

  /** `len(set(d)) == 1` for a non-empty list: every value equals the first. */
  predicate AllSame(d: seq<real>) {
    forall i :: 0 <= i < |d| ==> d[i] == d[0]
  }

  function Mean(d: seq<real>): real
    requires |d| > 0
  {
    Sum(d) / |d| as real
  }

  function Deviations(d: seq<real>, m: real): (r: seq<real>)
    ensures |r| == |d| && forall i :: 0 <= i < |d| ==> r[i] == d[i] - m
  {
    seq(|d|, i requires 0 <= i < |d| => d[i] - m)
  }

  function Squares(d: seq<real>): (r: seq<real>)
    ensures |r| == |d| && forall i :: 0 <= i < |d| ==> r[i] == d[i] * d[i]
  {
    seq(|d|, i requires 0 <= i < |d| => d[i] * d[i])
  }

  /** Population variance (`ddof=0`, as `stats.zscore` uses). */
  function Variance(d: seq<real>): real
    requires |d| > 0
  {
    Sum(Squares(Deviations(d, Mean(d)))) / |d| as real
  }

  lemma {:induction false} SumDeviations(d: seq<real>, m: real)
    ensures Sum(Deviations(d, m)) == Sum(d) - |d| as real * m
    decreases |d|
  {
    if |d| > 0 {
      SumDeviations(d[1..], m);
      assert Deviations(d, m)[1..] == Deviations(d[1..], m);
    }
  }

  /** A population whose values are not all the same has a positive variance. */
  lemma VariancePositive(d: seq<real>)
    requires |d| > 0 && !AllSame(d)
    ensures Variance(d) > 0.0
  {
    var m := Mean(d);
    var k :| 0 <= k < |d| && d[k] != m by {
      if forall i :: 0 <= i < |d| ==> d[i] == m {
        assert AllSame(d);
      }
    }
    var dev := Deviations(d, m);
    var sq := Squares(dev);
    forall i | 0 <= i < |sq| ensures sq[i] >= 0.0 {
      calc {
        sq[i];
      ==
        dev[i] * dev[i];
      >= { SquareNonNegative(dev[i]); }
        0.0;
      }
    }
    assert dev[k] != 0.0;
    SquarePositiveAt(dev, k);
    SumPositive(sq, k);
  }

  lemma SquarePositiveAt(dev: seq<real>, k: nat)
    requires k < |dev| && dev[k] != 0.0
    ensures Squares(dev)[k] > 0.0
  {
    calc {
      Squares(dev)[k];
    ==
      dev[k] * dev[k];
    > { SquareNonNegative(dev[k]); }
      0.0;
    }
  }

  lemma SquareNonNegative(x: real)
    ensures x * x >= 0.0
    ensures x != 0.0 ==> x * x > 0.0
  {
    if x < 0.0 {
      assert x * x == (-x) * (-x);
    }
  }

  /** Dividing by a positive number keeps order and sign. */
  lemma DividePositive(a: real, b: real, c: real)
    requires c > 0.0
    ensures a < b <==> a / c < b / c
    ensures a > 0.0 <==> a / c > 0.0
  {
    assert a / c * c == a;
    assert b / c * c == b;
    if a < b {
      assert (b / c - a / c) * c == b - a;
    }
    if a / c < b / c {
      assert (b / c - a / c) * c == b - a;
    }
  }

  /** `stats.zscore(d)`: each value's distance from the mean in standard deviations. */
  function ZScores(d: seq<real>, sqrt: Root): (z: seq<real>)
    requires |d| > 0 && !AllSame(d)
    ensures |z| == |d|
    ensures Sum(z) == 0.0
    ensures forall i :: 0 <= i < |d| ==> (z[i] > 0.0 <==> d[i] > Mean(d))
    ensures forall i, j :: 0 <= i < |d| && 0 <= j < |d| ==> (d[i] < d[j] <==> z[i] < z[j])
  {
    VariancePositive(d);
    var sd := sqrt(Variance(d));
    StandardScores(d, sd);
    Scale(Deviations(d, Mean(d)), sd)
  }

  /** Deviations from the mean, divided by any positive spread, sum to zero and keep the
      order and the side of the mean of the values they come from. */
  lemma StandardScores(d: seq<real>, sd: real)
    requires |d| > 0 && sd > 0.0
    ensures var z := Scale(Deviations(d, Mean(d)), sd);
      && Sum(z) == 0.0
      && (forall i :: 0 <= i < |d| ==> (z[i] > 0.0 <==> d[i] > Mean(d)))
      && (forall i, j :: 0 <= i < |d| && 0 <= j < |d| ==> (d[i] < d[j] <==> z[i] < z[j]))
  {
    var m := Mean(d);
    var z := Scale(Deviations(d, m), sd);
    SumScale(Deviations(d, m), sd);
    SumDeviations(d, m);
    MeanTimesCount(d);
    assert Sum(Deviations(d, m)) == 0.0;
    assert Sum(z) == 0.0 / sd;
    forall i, j | 0 <= i < |d| && 0 <= j < |d|
      ensures (d[i] < d[j] <==> z[i] < z[j]) && (z[i] > 0.0 <==> d[i] > m)
    {
      DividePositive(d[i] - m, d[j] - m, sd);
    }
  }

  lemma MeanTimesCount(d: seq<real>)
    requires |d| > 0
    ensures |d| as real * Mean(d) == Sum(d)
  {
  }

  /** `euclidean_zscore`: one score per vector; all zeros when every distance sum is the
      same (the standard score would be undefined). */
  function EuclideanZScore(vs: seq<Vec>, dist: (Vec, Vec) -> real, sqrt: Root): (scores: seq<real>)
    ensures |scores| == |vs|
    ensures AllSame(DistanceSums(vs, dist)) ==> forall i :: 0 <= i < |vs| ==> scores[i] == 0.0
    ensures !AllSame(DistanceSums(vs, dist)) ==> Sum(scores) == 0.0
    ensures forall i, j :: 0 <= i < |vs| && 0 <= j < |vs| ==>
              (DistanceSums(vs, dist)[i] < DistanceSums(vs, dist)[j] <==> scores[i] < scores[j])
  {
    var d := DistanceSums(vs, dist);
    if |d| == 0 then []
    else if AllSame(d) then seq(|vs|, i => 0.0)
    else ZScores(d, sqrt)
  }

  /** A population of identical vote splits scores 0 everywhere, whatever the distance. */
  lemma IdenticalVectorsScoreZero(vs: seq<Vec>, dist: (Vec, Vec) -> real, sqrt: Root)
    requires forall i :: 0 <= i < |vs| ==> vs[i] == vs[0]
    ensures forall i :: 0 <= i < |vs| ==> EuclideanZScore(vs, dist, sqrt)[i] == 0.0
  {
    var d := DistanceSums(vs, dist);
    forall i | 0 <= i < |vs|
      ensures d[i] == d[0]
    {
      assert seq(|vs|, j requires 0 <= j < |vs| => dist(vs[i], vs[j]))
          == seq(|vs|, j requires 0 <= j < |vs| => dist(vs[0], vs[j]));
    }
  }
}
