/** `get_most_anomalous`: drop the cells (contest, reporting-unit type, reporting unit, count
    type) whose summed count is zero, keep the analysis units whose largest votes at stake is
    among the `n` largest distinct such values, and report at most eight reporting units of
    each kept unit, sorted by reporting unit and then score, largest first. */
module Selection {

  import opened Wrappers
  import opened Seqs
  import opened Ranking
  import opened Scoring
  import opened Stakes

  // ----- cells without votes -----

  /** The columns the zero-count filter groups by. */
  datatype CellKey = CellKey(contestId: int, ruTypeId: int, ruId: int, countType: string)

  function CellOf(r: Staked): CellKey {
    var g := r.s.row.group;
    CellKey(g.contestId, g.ruTypeId, g.ruId, g.countType)
  }

  /** Summed count of the rows of one cell. */
  function CellCount(data: seq<Staked>, c: CellKey): int
    decreases |data|
  {
    if |data| == 0 then 0
    else (if CellOf(data[0]) == c then data[0].s.row.count else 0) + CellCount(data[1..], c)
  }

  function NonZero(data: seq<Staked>): Staked -> bool {
    (r: Staked) => CellCount(data, CellOf(r)) != 0
  }

  /** The inner merge with the cells whose summed count is not zero: the rows of those cells,
      in their order. */
  function NoZeros(data: seq<Staked>): (kept: seq<Staked>)
    ensures forall r :: r in kept <==> r in data && CellCount(data, CellOf(r)) != 0
  {
    Filter(data, NonZero(data))
  }

  /** A filter that keeps or drops all the rows of a cell keeps or zeroes its count. */
  lemma {:induction false} CellCountFilter(s: seq<Staked>, p: Staked -> bool, c: CellKey, keep: bool)
    requires forall r :: r in s && CellOf(r) == c ==> p(r) == keep
    ensures CellCount(Filter(s, p), c) == if keep then CellCount(s, c) else 0
    decreases |s|
  {
    if |s| > 0 {
      assert forall r :: r in s[1..] ==> r in s;
      CellCountFilter(s[1..], p, c, keep);
      if p(s[0]) {
        assert ([s[0]] + Filter(s[1..], p))[1..] == Filter(s[1..], p);
      }
    }
  }

  /** The filter removes whole cells: a kept cell keeps its count, so filtering again changes
      nothing. */
  lemma NoZerosIdempotent(data: seq<Staked>)
    ensures forall c :: CellCount(NoZeros(data), c) == if CellCount(data, c) != 0 then CellCount(data, c) else 0
    ensures NoZeros(NoZeros(data)) == NoZeros(data)
  {
    var kept := NoZeros(data);
    forall c ensures CellCount(kept, c) == if CellCount(data, c) != 0 then CellCount(data, c) else 0 {
      CellCountFilter(data, NonZero(data), c, CellCount(data, c) != 0);
    }
    forall i | 0 <= i < |kept| ensures NonZero(kept)(kept[i]) {
      CellCountFilter(data, NonZero(data), CellOf(kept[i]), true);
    }
    FilterAll(kept, NonZero(kept));
  }

  // ----- the units with the largest votes at stake -----

  /** The units of the rows, in order of first appearance (`unique()`). */
  function StakedUnits(data: seq<Staked>): (ids: seq<nat>)
    ensures NoDups(ids)
    ensures forall u :: u in ids <==> exists r :: r in data && r.s.unitId == u
  {
    var bases := Bases(data);
    assert forall r :: r in data ==> r.s in bases by {
      forall r | r in data ensures r.s in bases {
        var i :| 0 <= i < |data| && data[i] == r;
        assert bases[i] == r.s;
      }
    }
    assert forall b :: b in bases ==> exists r :: r in data && r.s == b by {
      forall b | b in bases ensures exists r :: r in data && r.s == b {
        var i :| 0 <= i < |bases| && bases[i] == b;
        assert data[i] in data;
      }
    }
    UnitIds(bases)
  }

  /** `groupby('unit_id')['votes_at_stake'].max()` for one unit; None for a unit without rows. */
  function UnitMax(data: seq<Staked>, u: nat): (m: Option<real>)
    ensures m.None? <==> forall r :: r in data ==> r.s.unitId != u
    ensures m.Some? ==> exists r :: r in data && r.s.unitId == u && r.votes == m.value
    ensures m.Some? ==> forall r :: r in data && r.s.unitId == u ==> r.votes <= m.value
    decreases |data|
  {
    if |data| == 0 then None
    else
      assert data == [data[0]] + data[1..];
      var rest := UnitMax(data[1..], u);
      if data[0].s.unitId != u || (rest.Some? && rest.value >= data[0].votes) then rest
      else Some(data[0].votes)
  }

  /** A unit of the rows has a maximum. */
  lemma UnitMaxPresent(data: seq<Staked>, u: nat)
    requires u in StakedUnits(data)
    ensures UnitMax(data, u).Some?
  {
    var r :| r in data && r.s.unitId == u;
  }

  /** The column of unit maxima, one per unit. */
  function Maxima(data: seq<Staked>): (ms: seq<real>)
    ensures |ms| == |StakedUnits(data)|
    ensures forall k :: 0 <= k < |ms| ==> UnitMax(data, StakedUnits(data)[k]) == Some(ms[k])
  {
    var ids := StakedUnits(data);
    assert forall k :: 0 <= k < |ids| ==> UnitMax(data, ids[k]).Some? by {
      forall k | 0 <= k < |ids| ensures UnitMax(data, ids[k]).Some? {
        UnitMaxPresent(data, ids[k]);
      }
    }
    seq(|ids|, k requires 0 <= k < |ids| => UnitMax(data, ids[k]).value)
  }

  /** `sorted(set(maxima), reverse=True)[:n]`. */
  function TopScores(data: seq<Staked>, n: int): (top: seq<real>)
    ensures forall x :: x in top ==> x in Maxima(data)
  {
    SliceTo(SortedSet(Maxima(data)), n)
  }

  /** The rows whose unit maximum is among the top scores. */
  function InTop(data: seq<Staked>, top: seq<real>): Staked -> bool {
    (r: Staked) => var m := UnitMax(data, r.s.unitId); m.Some? && m.value in top
  }

  /** `result`: the rows without zero-count cells whose unit maximum is among the top `n`. */
  function Chosen(data: seq<Staked>, n: int): (result: seq<Staked>)
    ensures forall r :: r in result ==> r in data
  {
    var kept := NoZeros(data);
    Filter(kept, InTop(kept, TopScores(kept, n)))
  }

  /** A row is chosen exactly when its cell has votes and fewer distinct unit maxima than `n`
      allows are larger than its unit's maximum. */
  lemma ChosenRow(data: seq<Staked>, n: int, r: Staked)
    ensures r in Chosen(data, n)
        <==> && r in data && CellCount(data, CellOf(r)) != 0
             && var kept := NoZeros(data);
                var m := UnitMax(kept, r.s.unitId).value;
                |set x | x in Maxima(kept) && x > m| < SliceEnd(|set x | x in Maxima(kept)|, n)
  {
    var kept := NoZeros(data);
    if r in kept {
      var ids := StakedUnits(kept);
      assert r.s.unitId in ids;
      var k := IndexOf(ids, r.s.unitId);
      assert UnitMax(kept, r.s.unitId).value in Maxima(kept) by {
        assert Maxima(kept)[k] == UnitMax(kept, r.s.unitId).value;
      }
      TopRank(Maxima(kept), n, UnitMax(kept, r.s.unitId).value);
    }
  }

  // ----- the rows reported for a unit -----

  function UnitRowsOf(result: seq<Staked>, u: nat): (rows: seq<Staked>)
    ensures forall r :: r in rows <==> r in result && r.s.unitId == u
  {
    Filter(result, (r: Staked) => r.s.unitId == u)
  }

  function RuColumn(rows: seq<Staked>): (rus: seq<int>)
    ensures |rus| == |rows| && forall i :: 0 <= i < |rows| ==> rus[i] == rows[i].s.row.group.ruId
  {
    seq(|rows|, i requires 0 <= i < |rows| => rows[i].s.row.group.ruId)
  }

  /** `unique[0:8]`: the first eight reporting units of a unit, in order of first appearance. */
  function FirstRus(result: seq<Staked>, u: nat): (rus: seq<int>)
    ensures |rus| <= 8 && NoDups(rus)
    ensures forall ru :: ru in rus ==> exists r :: r in result && r.s.unitId == u && r.s.row.group.ruId == ru
  {
    var rows := UnitRowsOf(result, u);
    var col := RuColumn(rows);
    var d := Distinct(col);
    var rus := Take(d, 8);
    assert forall ru :: ru in rus ==> ru in col;
    assert forall ru :: ru in col ==> exists r :: r in rows && r.s.row.group.ruId == ru by {
      forall ru | ru in col ensures exists r :: r in rows && r.s.row.group.ruId == ru {
        var i :| 0 <= i < |col| && col[i] == ru;
        assert rows[i] in rows;
      }
    }
    assert NoDups(rus) by {
      assert rus == d[..|rus|];
    }
    rus
  }

  /** The sort key `['ReportingUnit_Id', 'score']`, descending, NaN score last. */
  function ByRuAndScore(): Staked -> Key {
    (r: Staked) => Key(Value(r.s.row.group.ruId as real), ScoreRank(r.s))
  }

  function InRus(rus: seq<int>): Staked -> bool {
    (r: Staked) => r.s.row.group.ruId in rus
  }

  /** `df_final` for one unit: its rows of the first eight reporting units, reordered by
      reporting unit and score, largest first. */
  function UnitBlock(result: seq<Staked>, u: nat): seq<Staked>
  {
    SortDesc(Filter(UnitRowsOf(result, u), InRus(FirstRus(result, u))), ByRuAndScore())
  }

  /** A unit's block is sorted and holds exactly that unit's rows of its first eight
      reporting units. */
  lemma UnitBlockSpec(result: seq<Staked>, u: nat)
    ensures var block := UnitBlock(result, u);
      && SortedDesc(block, ByRuAndScore())
      && multiset(block) == multiset(Filter(UnitRowsOf(result, u), InRus(FirstRus(result, u))))
      && forall r :: r in block <==> r in result && r.s.unitId == u && r.s.row.group.ruId in FirstRus(result, u)
  {
    var picked := Filter(UnitRowsOf(result, u), InRus(FirstRus(result, u)));
    var block := SortDesc(picked, ByRuAndScore());
    forall r ensures r in block <==> r in picked {
      SameElements(picked, block, r);
    }
  }

  function BlockOf(result: seq<Staked>): nat -> seq<Staked> {
    (u: nat) => UnitBlock(result, u)
  }

  function SelectionBlocks(result: seq<Staked>): (bs: seq<seq<Staked>>)
    ensures |bs| == |StakedUnits(result)|
    ensures forall k :: 0 <= k < |bs| ==> bs[k] == UnitBlock(result, StakedUnits(result)[k])
  {
    MapSeq(StakedUnits(result), BlockOf(result))
  }

  /** The result of `get_most_anomalous`: the unit blocks one after the other. */
  function MostAnomalous(data: seq<Staked>, n: int): seq<Staked>
  {
    Concat(SelectionBlocks(Chosen(data, n)))
  }

  /** A row is reported exactly when it is chosen and its reporting unit is among the first
      eight of its unit. */
  lemma MostAnomalousRow(data: seq<Staked>, n: int, r: Staked)
    ensures r in MostAnomalous(data, n)
        <==> r in Chosen(data, n) && r.s.row.group.ruId in FirstRus(Chosen(data, n), r.s.unitId)
  {
    if r in MostAnomalous(data, n) {
      ReportedIsChosen(data, n, r);
    }
    if r in Chosen(data, n) && r.s.row.group.ruId in FirstRus(Chosen(data, n), r.s.unitId) {
      ChosenIsReported(data, n, r);
    }
  }

  lemma ReportedIsChosen(data: seq<Staked>, n: int, r: Staked)
    requires r in MostAnomalous(data, n)
    ensures r in Chosen(data, n) && r.s.row.group.ruId in FirstRus(Chosen(data, n), r.s.unitId)
  {
    var result := Chosen(data, n);
    var bs := SelectionBlocks(result);
    var k := ConcatMember(bs, r);
    UnitBlockSpec(result, StakedUnits(result)[k]);
  }

  lemma ChosenIsReported(data: seq<Staked>, n: int, r: Staked)
    requires r in Chosen(data, n) && r.s.row.group.ruId in FirstRus(Chosen(data, n), r.s.unitId)
    ensures r in MostAnomalous(data, n)
  {
    var result := Chosen(data, n);
    var bs := SelectionBlocks(result);
    var ids := StakedUnits(result);
    assert r.s.unitId in ids;
    var k := IndexOf(ids, r.s.unitId);
    UnitBlockSpec(result, r.s.unitId);
    assert r in bs[k];
    ConcatContains(bs, k, r);
  }

  /** The reporting units a unit reports. */
  function ReportedRus(data: seq<Staked>, n: int, u: nat): set<int> {
    set r | r in MostAnomalous(data, n) && r.s.unitId == u :: r.s.row.group.ruId
  }

  /** No unit reports more than eight reporting units. */
  lemma AtMostEightRus(data: seq<Staked>, n: int, u: nat)
    ensures |ReportedRus(data, n, u)| <= 8
  {
    var rus := FirstRus(Chosen(data, n), u);
    var reported := ReportedRus(data, n, u);
    var allowed := set x | x in rus;
    forall ru | ru in reported ensures ru in allowed {
      var r :| r in MostAnomalous(data, n) && r.s.unitId == u && r.s.row.group.ruId == ru;
      MostAnomalousRow(data, n, r);
    }
    SubsetCardinality(reported, allowed);
    CardinalityAtMost(rus);
  }

  /** `get_most_anomalous`: the chosen rows, reported unit by unit in order of first
      appearance of the unit. */
  method GetMostAnomalous(data: seq<Staked>, n: int) returns (df: seq<Staked>)
    ensures df == MostAnomalous(data, n)
  {
    var result := Chosen(data, n);
    var ids := StakedUnits(result);
    df := ConcatMap(ids, BlockOf(result));
  }
}
