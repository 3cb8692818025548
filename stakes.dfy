/** `calculate_margins` and `calculate_votes_at_stake`: for each analysis unit, how many votes
    would move if the most anomalous pair of rows were brought to the vote split of the next
    pair of rows on the same side of the distribution. */
module Stakes {

  import opened Wrappers
  import opened Seqs
  import opened Ranking
  import opened Scoring

  /** A positive margin divisor. */
  type Positive = x: real | x > 0.0 witness 1.0

  /** An output row of `calculate_votes_at_stake`: a scored row and its votes at stake. */
  datatype Staked = Staked(s: Scored, votes: real)

  /** `calculate_margins`: returns its input unchanged; in particular it adds no `margins`
      column, so the divisor that `calculate_votes_at_stake` reads is absent. */
  function CalculateMargins(data: seq<Scored>): (r: seq<Scored>)
    ensures |r| == |data| && forall i :: 0 <= i < |r| ==> r[i] == data[i]
  {
    data
  }

  function Abs(x: real): (a: real)
    ensures a >= 0.0 && (a == x || a == -x)
  {
    if x < 0.0 then -x else x
  }

  /** The score as a sort key component (NaN last). */
  function ScoreRank(r: Scored): Rank {
    if r.score.Some? then Value(r.score.value) else Missing
  }

  /** `abs_score`, NaN last. */
  function AbsRank(r: Scored): Rank {
    if r.score.Some? then Value(Abs(r.score.value)) else Missing
  }

  function ByScore(): Scored -> Key {
    (r: Scored) => Single(ScoreRank(r))
  }

  function ByAbsScore(): Scored -> Key {
    (r: Scored) => Single(AbsRank(r))
  }

  /** Summed count of some rows (`df['Count'].sum()`). */
  function RowsCount(rows: seq<Scored>): int
    decreases |rows|
  {
    if |rows| == 0 then 0 else rows[0].row.count + RowsCount(rows[1..])
  }

  /** The count of the first row of a candidate (`df[df['Candidate_Id'] == c].iloc[0]['Count']`);
      None is the IndexError when there is no such row. */
  function FirstCount(rows: seq<Scored>, cand: int): (c: Option<int>)
    ensures c.None? <==> forall r :: r in rows ==> r.row.group.candidateId != cand
    ensures c.Some? ==> exists r :: r in rows && r.row.group.candidateId == cand && r.row.count == c.value
    decreases |rows|
  {
    if |rows| == 0 then None
    else if rows[0].row.group.candidateId == cand then Some(rows[0].row.count)
    else
      assert forall r :: r in rows[1..] ==> r in rows;
      assert rows == [rows[0]] + rows[1..];
      FirstCount(rows[1..], cand)
  }

  // ----- the next anomalous pair -----

  /** The scores strictly below `a0` (NaN compares false). */
  function Below(a0: real): Scored -> bool {
    (r: Scored) => r.score.Some? && r.score.value < a0
  }

  /** The scores strictly above `a0`. */
  function Above(a0: real): Scored -> bool {
    (r: Scored) => r.score.Some? && r.score.value > a0
  }

  /** The last (at most) two elements. */
  function LastTwo<T>(s: seq<T>): (r: seq<T>)
    ensures |r| == (if |s| < 2 then |s| else 2) && r == s[|s| - |r|..]
  {
    if |s| < 2 then s else s[|s| - 2..]
  }

  /** The next pair as the code selects it from the rows sorted by score, largest first: the
      first two rows below the top anomalous score when that score is positive, and otherwise
      the first two rows above it, which are the two highest scores of the unit. */
  function NextPairAsWritten(sorted: seq<Scored>, a0: Option<real>): (next: seq<Scored>)
    ensures |next| <= 2
    ensures forall r :: r in next ==>
              && r in sorted && r.score.Some? && a0.Some?
              && (a0.value > 0.0 ==> r.score.value < a0.value)
              && (a0.value <= 0.0 ==> r.score.value > a0.value)
  {
    match a0
    case None => []
    case Some(v) => if v > 0.0 then Take(Filter(sorted, Below(v)), 2) else Take(Filter(sorted, Above(v)), 2)
  }

  /** The corrected next pair, mirroring the positive branch at analyze/__init__.py:597: the two
      rows nearest to the top anomalous score on its own side, below it when it is positive and
      above it otherwise. */
  function NextPair(sorted: seq<Scored>, a0: Option<real>): (next: seq<Scored>)
    ensures |next| <= 2
    ensures forall r :: r in next ==>
              && r in sorted && r.score.Some? && a0.Some?
              && (a0.value > 0.0 ==> r.score.value < a0.value)
              && (a0.value <= 0.0 ==> r.score.value > a0.value)
  {
    match a0
    case None => []
    case Some(v) =>
      if v > 0.0 then Take(Filter(sorted, Below(v)), 2)
      else
        var above := Filter(sorted, Above(v));
        assert forall r :: r in LastTwo(above) ==> r in above;
        LastTwo(above)
  }

  /** In a sequence sorted by score, largest first, the rows the corrected next pair leaves out
      on the anomalous row's side are farther from it than the rows it keeps. */
  lemma NextPairIsNearest(sorted: seq<Scored>, a0: real, r: Scored, other: Scored)
    requires SortedDesc(sorted, ByScore())
    requires r in NextPair(sorted, Some(a0)) && other in sorted && other !in NextPair(sorted, Some(a0))
    ensures a0 > 0.0 && Below(a0)(other) ==> other.score.value <= r.score.value
    ensures a0 <= 0.0 && Above(a0)(other) ==> other.score.value >= r.score.value
  {
    if a0 > 0.0 {
      var below := Filter(sorted, Below(a0));
      FilterSorted(sorted, Below(a0), ByScore());
      if Below(a0)(other) {
        TakeLeads(below, ByScore(), 2, r, other);
      }
    } else {
      var above := Filter(sorted, Above(a0));
      FilterSorted(sorted, Above(a0), ByScore());
      if Above(a0)(other) {
        var last := LastTwo(above);
        assert above == above[..|above| - |last|] + last;
        assert other in above[..|above| - |last|];
        SortedPrefix(above, ByScore(), |above| - |last|, other, r);
      }
    }
  }

  /** Four rows scored 1.5, 1, -1 and -2, sorted by score. The top anomalous score is -2;
      the code takes the rows scored 1.5 and 1 as the next pair, the two farthest from it,
      where the nearest rows above -2 are the ones scored 1 and -1. */
  lemma NextPairAsWrittenIsFarthest(a: Scored, b: Scored, c: Scored, e: Scored)
    requires a.score == Some(1.5) && b.score == Some(1.0)
    requires c.score == Some(-1.0) && e.score == Some(-2.0)
    ensures SortedDesc([a, b, c, e], ByScore())
    ensures NextPairAsWritten([a, b, c, e], Some(-2.0)) == [a, b]
    ensures NextPair([a, b, c, e], Some(-2.0)) == [b, c]
  {
    var p := Above(-2.0);
    assert p(a) && p(b) && p(c) && !p(e);
    FilterLastFails(a, b, c, e, p);
    SortedFour(a, b, c, e, ByScore());
  }

  // ----- votes at stake -----

  /** The votes at stake of a unit, from its anomalous pair and the next pair; None is any of
      the failures the code catches: a candidate of the anomalous pair missing from the next
      pair, a next pair without votes (division by zero), or no margin divisor. */
  function Stake(anomalous: seq<Scored>, next: seq<Scored>, margin: Option<Positive>): (v: Option<real>)
    requires |anomalous| == 2
    ensures v.None? <==>
              || margin.None? || RowsCount(next) == 0
              || FirstCount(next, anomalous[0].row.group.candidateId).None?
              || FirstCount(next, anomalous[1].row.group.candidateId).None?
    ensures v.Some? ==> v.value >= 0.0
  {
    var total := RowsCount(anomalous) as real;
    var nextTotal := RowsCount(next);
    var c1 := anomalous[0].row.group.candidateId;
    var c2 := anomalous[1].row.group.candidateId;
    var cnt1 := FirstCount(anomalous, c1);
    var cnt2 := FirstCount(anomalous, c2);
    var n1 := FirstCount(next, c1);
    var n2 := FirstCount(next, c2);
    assert anomalous[0] in anomalous && anomalous[1] in anomalous;
    if n1.None? || n2.None? || nextTotal == 0 || margin.None? then None
    else
      var p1 := n1.value as real / nextTotal as real;
      var p2 := n2.value as real / nextTotal as real;
      var stake := Abs(p1 * total - cnt1.value as real) + Abs(p2 * total - cnt2.value as real);
      NonNegativeQuotient(stake, margin.value);
      Some(stake / margin.value)
  }

  lemma NonNegativeQuotient(a: real, b: real)
    requires a >= 0.0 && b > 0.0
    ensures a / b >= 0.0
  {
  }

  /** The rows of one unit with their votes at stake. A unit of more than two rows comes out
      sorted by score, largest first (NaN last), every row carrying the unit's value, 0 on a
      failure; a smaller unit keeps its order and gets 0. `nextPair` selects the next pair. */
  function UnitStakes(rows: seq<Scored>, margin: Option<Positive>,
                      nextPair: (seq<Scored>, Option<real>) -> seq<Scored>): (out: seq<Staked>)
    ensures |out| == |rows|
    ensures |rows| <= 2 ==> forall i :: 0 <= i < |out| ==> out[i] == Staked(rows[i], 0.0)
    ensures |rows| > 2 ==> multiset(Bases(out)) == multiset(rows) && SortedDesc(Bases(out), ByScore())
    ensures forall i :: 0 <= i < |out| ==> out[i].votes >= 0.0
    ensures forall i, j :: 0 <= i < |out| && 0 <= j < |out| ==> out[i].votes == out[j].votes
    ensures margin.None? ==> forall i :: 0 <= i < |out| ==> out[i].votes == 0.0
    ensures |rows| > 2 ==> forall i :: 0 <= i < |out| ==> out[i].votes == UnitVotes(rows, margin, nextPair)
  {
    if |rows| <= 2 then WithVotes(rows, 0.0)
    else
      WithVotes(SortDesc(rows, ByScore()), UnitVotes(rows, margin, nextPair))
  }

  /** Every row with the same votes-at-stake value (`temp_df['votes_at_stake'] = ...`). */
  function WithVotes(rows: seq<Scored>, votes: real): (out: seq<Staked>)
    ensures |out| == |rows| && Bases(out) == rows
    ensures forall i :: 0 <= i < |out| ==> out[i] == Staked(rows[i], votes)
  {
    seq(|rows|, i requires 0 <= i < |rows| => Staked(rows[i], votes))
  }

  /** The scored rows of some output rows. */
  function Bases(out: seq<Staked>): (b: seq<Scored>)
    ensures |b| == |out| && forall i :: 0 <= i < |out| ==> b[i] == out[i].s
  {
    seq(|out|, i requires 0 <= i < |out| => out[i].s)
  }

  /** `temp_df.sort_values('abs_score', ascending=False).iloc[0:2]`: the anomalous pair. */
  function AnomalousPair(rows: seq<Scored>): (pair: seq<Scored>)
    requires |rows| >= 2
    ensures |pair| == 2 && pair[0] in rows && pair[1] in rows
  {
    var sorted := SortDesc(rows, ByAbsScore());
    SameElements(sorted, rows, sorted[0]);
    SameElements(sorted, rows, sorted[1]);
    Take(sorted, 2)
  }

  /** The anomalous pair holds the largest scores in absolute value: a scored row left out has
      an absolute score no larger than either row of the pair, which are then scored too. */
  lemma AnomalousPairLeads(rows: seq<Scored>, x: Scored, y: Scored)
    requires |rows| >= 2 && x in AnomalousPair(rows) && y in rows && y !in AnomalousPair(rows)
    ensures y.score.Some? ==> x.score.Some? && Abs(x.score.value) >= Abs(y.score.value)
  {
    var sorted := SortDesc(rows, ByAbsScore());
    SameElements(sorted, rows, y);
    TakeLeads(sorted, ByAbsScore(), 2, x, y);
  }

  /** The next pair chosen from the rows sorted by score, relative to the anomalous pair's
      first score. */
  function NextOf(rows: seq<Scored>, nextPair: (seq<Scored>, Option<real>) -> seq<Scored>): seq<Scored>
    requires |rows| >= 2
  {
    nextPair(SortDesc(rows, ByScore()), AnomalousPair(rows)[0].score)
  }

  /** The value every row of a unit of more than two rows gets: the votes at stake, or 0 when
      the computation fails (the bare `except`): no margin divisor, a next pair without votes,
      or a candidate of the anomalous pair missing from the next pair. */
  function UnitVotes(rows: seq<Scored>, margin: Option<Positive>,
                     nextPair: (seq<Scored>, Option<real>) -> seq<Scored>): (votes: real)
    requires |rows| > 2
    ensures votes >= 0.0
    ensures var pair, next := AnomalousPair(rows), NextOf(rows, nextPair);
      (|| margin.None? || RowsCount(next) == 0
       || FirstCount(next, pair[0].row.group.candidateId).None?
       || FirstCount(next, pair[1].row.group.candidateId).None?) ==> votes == 0.0
    ensures var st := Stake(AnomalousPair(rows), NextOf(rows, nextPair), margin);
      st.Some? ==> votes == st.value
  {
    match Stake(AnomalousPair(rows), NextOf(rows, nextPair), margin)
    case Some(v) => v
    case None => 0.0
  }

  /** The unit ids of the rows, in order of first appearance (`data['unit_id'].unique()`). */
  function UnitIds(data: seq<Scored>): (ids: seq<nat>)
    ensures NoDups(ids)
    ensures forall u :: u in ids <==> exists r :: r in data && r.unitId == u
  {
    var col: seq<nat> := seq(|data|, i requires 0 <= i < |data| => data[i].unitId);
    assert forall r :: r in data ==> r.unitId in col by {
      forall r | r in data ensures r.unitId in col {
        var i :| 0 <= i < |data| && data[i] == r;
        assert col[i] == r.unitId;
      }
    }
    Distinct(col)
  }

  /** The rows of one unit (`data[data['unit_id'] == unit_id]`). */
  function RowsOf(data: seq<Scored>, u: nat): (rows: seq<Scored>)
    ensures forall r :: r in rows <==> r in data && r.unitId == u
  {
    Filter(data, (r: Scored) => r.unitId == u)
  }

  function StakeBlocks(data: seq<Scored>, margin: nat -> Option<Positive>,
                       nextPair: (seq<Scored>, Option<real>) -> seq<Scored>): (bs: seq<seq<Staked>>)
    ensures |bs| == |UnitIds(data)|
    ensures forall k :: 0 <= k < |bs| ==>
              bs[k] == UnitStakes(RowsOf(data, UnitIds(data)[k]), margin(UnitIds(data)[k]), nextPair)
  {
    var ids := UnitIds(data);
    seq(|ids|, k requires 0 <= k < |ids| => UnitStakes(RowsOf(data, ids[k]), margin(ids[k]), nextPair))
  }

  /** The result of `calculate_votes_at_stake`, with the margin divisor of each unit and the
      next-pair selection as parameters. */
  function VotesAtStake(data: seq<Scored>, margin: nat -> Option<Positive>,
                        nextPair: (seq<Scored>, Option<real>) -> seq<Scored>): seq<Staked>
  {
    Concat(StakeBlocks(data, margin, nextPair))
  }

  /** Every output row is an input row of its unit with a non-negative value that is 0 for a
      unit of at most two rows or without a margin divisor. */
  lemma VotesAtStakeRow(data: seq<Scored>, margin: nat -> Option<Positive>,
                        nextPair: (seq<Scored>, Option<real>) -> seq<Scored>, r: Staked)
    requires r in VotesAtStake(data, margin, nextPair)
    ensures r.s in data
    ensures r.votes >= 0.0
    ensures |RowsOf(data, r.s.unitId)| <= 2 ==> r.votes == 0.0
    ensures margin(r.s.unitId).None? ==> r.votes == 0.0
    ensures |RowsOf(data, r.s.unitId)| > 2
            ==> r.votes == UnitVotes(RowsOf(data, r.s.unitId), margin(r.s.unitId), nextPair)
  {
    var bs := StakeBlocks(data, margin, nextPair);
    var k := ConcatMember(bs, r);
    var u := UnitIds(data)[k];
    var rows := RowsOf(data, u);
    var i :| 0 <= i < |bs[k]| && bs[k][i] == r;
    if |rows| > 2 {
      assert Bases(bs[k])[i] == r.s;
      SameElements(Bases(bs[k]), rows, r.s);
    }
    assert r.s in rows;
  }

  /** As written, no step adds the `margins` column, so reading it fails for every unit and the
      caught failure sets votes_at_stake to 0 on every row. */
  lemma AsWrittenVotesAlwaysZero(data: seq<Scored>, r: Staked)
    requires r in VotesAtStake(CalculateMargins(data), (u: nat) => None, NextPairAsWritten)
    ensures r.votes == 0.0
  {
    VotesAtStakeRow(CalculateMargins(data), (u: nat) => None, NextPairAsWritten, r);
  }

  /** `calculate_votes_at_stake` with a margin divisor for each unit and the nearest next pair:
      the units are handled one after the other and their rows concatenated. */
  method CalculateVotesAtStake(data: seq<Scored>, margin: nat -> Positive) returns (df: seq<Staked>)
    ensures df == VotesAtStake(data, (u: nat) => Some(margin(u)), NextPair)
  {
    var divisor := (u: nat) => Some(margin(u));
    ghost var blocks := StakeBlocks(data, divisor, NextPair);
    var ids := UnitIds(data);
    df := [];
    var k := 0;
    while k < |ids|
      invariant k <= |ids|
      invariant df == Concat(blocks[..k])
    {
      ConcatStep(blocks, k);
      df := df + UnitStakes(RowsOf(data, ids[k]), divisor(ids[k]), NextPair);
      k := k + 1;
    }
    assert blocks[..k] == blocks;
  }
}
