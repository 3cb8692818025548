/** `assign_anomaly_score`: roll the vote counts up to the parent reporting units, split them
    into analysis units (contest, reporting-unit type, count type), keep the two leading
    selections of a contest with more, drop reporting units with 100 votes or fewer, and score
    the vote-share vectors of a unit that keeps at least five reporting units. */
module Scoring {

  import opened Wrappers
  import opened Seqs
  import opened Ranking
  import opened ZScore

  /** The grouping columns of a vote-count row: the parent reporting unit (id, name, type), the
      candidate, the count type, the contest (id, name, type, district type) and the selection. */
  datatype Group = Group(ruId: int, name: string, ruTypeId: int, candidateId: int,
                         countType: string, contestId: int, contest: string, selection: string,
                         contestType: string, districtType: string)

  /** An input row: a child reporting unit's count, with the columns of one of its parents. */
  datatype Obs = Obs(childId: int, group: Group, count: int)

  /** The grouping columns as read, each None for a NaN cell (a ballot-measure selection, for
      one, reaches the input through left merges without a candidate, selection or contest). */
  datatype RawGroup = RawGroup(ruId: Option<int>, name: Option<string>, ruTypeId: Option<int>,
                               candidateId: Option<int>, countType: Option<string>,
                               contestId: Option<int>, contest: Option<string>,
                               selection: Option<string>, contestType: Option<string>,
                               districtType: Option<string>)

  /** An input row as read. */
  datatype RawObs = RawObs(childId: int, group: RawGroup, count: int)

  /** None of the ten grouping cells is NaN. */
  predicate KeysFilled(g: RawGroup) {
    && g.ruId.Some? && g.name.Some? && g.ruTypeId.Some? && g.candidateId.Some?
    && g.countType.Some? && g.contestId.Some? && g.contest.Some? && g.selection.Some?
    && g.contestType.Some? && g.districtType.Some?
  }

  /** The group of a row whose grouping cells are all filled. */
  function Key(g: RawGroup): Group
    requires KeysFilled(g)
  {
    Group(g.ruId.value, g.name.value, g.ruTypeId.value, g.candidateId.value, g.countType.value,
          g.contestId.value, g.contest.value, g.selection.value, g.contestType.value,
          g.districtType.value)
  }

  /** The rows `groupby` sums, under its default `dropna=True`: the rows with a NaN grouping
      cell are dropped and the others kept, in order. */
  function DropNaKeys(raw: seq<RawObs>): (data: seq<Obs>)
    ensures |data| <= |raw|
    ensures forall o :: o in data <==>
              exists r :: r in raw && KeysFilled(r.group) && o == Obs(r.childId, Key(r.group), r.count)
    decreases |raw|
  {
    if |raw| == 0 then []
    else
      var init := raw[..|raw| - 1];
      var last := raw[|raw| - 1];
      assert raw == init + [last];
      DropNaKeys(init) + (if KeysFilled(last.group) then [Obs(last.childId, Key(last.group), last.count)] else [])
  }

  /** A rolled-up row: the summed count of one group (a row of `grouped_df`). */
  datatype Tally = Tally(group: Group, count: int)

  /** An output row: a rolled-up row of a scored unit, its unit id, and the reporting unit's row
      total and anomaly score (None where pandas leaves NaN after the left merge). */
  datatype Scored = Scored(row: Tally, unitId: nat, total: Option<real>, score: Option<real>)

  // ----- roll-up -----

  function Groups(data: seq<Obs>): (gs: seq<Group>)
    ensures |gs| == |data| && forall i :: 0 <= i < |data| ==> gs[i] == data[i].group
  {
    seq(|data|, i requires 0 <= i < |data| => data[i].group)
  }

  /** Summed count of the rows of one group. */
  function CountOf(data: seq<Obs>, g: Group): int
    decreases |data|
  {
    if |data| == 0 then 0
    else CountOf(data[..|data| - 1], g) + (if data[|data| - 1].group == g then data[|data| - 1].count else 0)
  }

  /** Summed count of all rows. */
  function Total(data: seq<Obs>): int
    decreases |data|
  {
    if |data| == 0 then 0 else Total(data[..|data| - 1]) + data[|data| - 1].count
  }

  function TallyTotal(ts: seq<Tally>): int
    decreases |ts|
  {
    if |ts| == 0 then 0 else TallyTotal(ts[..|ts| - 1]) + ts[|ts| - 1].count
  }

  /** `data.groupby([...])['Count'].sum()`: one row per distinct group holding its summed count. */
  function RollUp(data: seq<Obs>): (grouped: seq<Tally>)
    ensures forall i, j :: 0 <= i < j < |grouped| ==> grouped[i].group != grouped[j].group
    ensures forall i :: 0 <= i < |grouped| ==> grouped[i].group in Groups(data)
    ensures forall o :: o in data ==> exists i :: 0 <= i < |grouped| && grouped[i].group == o.group
    ensures forall i :: 0 <= i < |grouped| ==> grouped[i].count == CountOf(data, grouped[i].group)
  {
    var keys := Distinct(Groups(data));
    var grouped := seq(|keys|, i requires 0 <= i < |keys| => Tally(keys[i], CountOf(data, keys[i])));
    assert forall o :: o in data ==> exists i :: 0 <= i < |grouped| && grouped[i].group == o.group by {
      forall o | o in data ensures exists i :: 0 <= i < |grouped| && grouped[i].group == o.group {
        var i :| 0 <= i < |data| && data[i] == o;
        assert Groups(data)[i] == o.group;
        assert o.group in keys;
        var k :| 0 <= k < |keys| && keys[k] == o.group;
        assert grouped[k].group == o.group;
      }
    }
    grouped
  }

  /** Summed counts per group key, over a list of keys. */
  function KeySum(keys: seq<Group>, data: seq<Obs>): int
    decreases |keys|
  {
    if |keys| == 0 then 0 else KeySum(keys[..|keys| - 1], data) + CountOf(data, keys[|keys| - 1])
  }

  lemma {:induction false} KeySumAppend(keys: seq<Group>, p: seq<Obs>, x: Obs)
    requires NoDups(keys)
    ensures KeySum(keys, p + [x]) == KeySum(keys, p) + (if x.group in keys then x.count else 0)
    decreases |keys|
  {
    var data := p + [x];
    assert data[..|data| - 1] == p;
    if |keys| > 0 {
      var ks := keys[..|keys| - 1];
      assert NoDups(ks);
      KeySumAppend(ks, p, x);
      assert keys == ks + [keys[|keys| - 1]];
      assert x.group in keys <==> x.group in ks || x.group == keys[|keys| - 1];
    }
  }

  lemma {:induction false} CountOfAbsent(data: seq<Obs>, g: Group)
    requires g !in Groups(data)
    ensures CountOf(data, g) == 0
    decreases |data|
  {
    if |data| > 0 {
      var p := data[..|data| - 1];
      assert Groups(p) == Groups(data)[..|data| - 1];
      CountOfAbsent(p, g);
      assert Groups(data)[|data| - 1] == data[|data| - 1].group;
    }
  }

  lemma {:induction false} KeySumDistinct(data: seq<Obs>)
    ensures KeySum(Distinct(Groups(data)), data) == Total(data)
    decreases |data|
  {
    if |data| > 0 {
      var p := data[..|data| - 1];
      var x := data[|data| - 1];
      assert data == p + [x];
      assert Groups(data)[..|data| - 1] == Groups(p);
      KeySumDistinct(p);
      var d := Distinct(Groups(p));
      KeySumAppend(d, p, x);
      if x.group !in d {
        var keys := d + [x.group];
        assert keys[..|keys| - 1] == d;
        CountOfAbsent(p, x.group);
        assert data[..|data| - 1] == p;
      }
    }
  }

  lemma {:induction false} TallyTotalKeys(keys: seq<Group>, data: seq<Obs>)
    ensures TallyTotal(seq(|keys|, i requires 0 <= i < |keys| => Tally(keys[i], CountOf(data, keys[i]))))
            == KeySum(keys, data)
    decreases |keys|
  {
    if |keys| > 0 {
      var ks := keys[..|keys| - 1];
      TallyTotalKeys(ks, data);
      var ts := seq(|keys|, i requires 0 <= i < |keys| => Tally(keys[i], CountOf(data, keys[i])));
      assert ts[..|ts| - 1] == seq(|ks|, i requires 0 <= i < |ks| => Tally(ks[i], CountOf(data, ks[i])));
    }
  }

  /** The roll-up neither loses nor invents votes. */
  lemma RollUpKeepsTotal(data: seq<Obs>)
    ensures TallyTotal(RollUp(data)) == Total(data)
  {
    TallyTotalKeys(Distinct(Groups(data)), data);
    KeySumDistinct(data);
  }

  /** Summed count of the rows whose grouping cells are all filled. */
  function CompleteTotal(raw: seq<RawObs>): int
    decreases |raw|
  {
    if |raw| == 0 then 0
    else CompleteTotal(raw[..|raw| - 1]) + (if KeysFilled(raw[|raw| - 1].group) then raw[|raw| - 1].count else 0)
  }

  lemma {:induction false} DropNaKeysTotal(raw: seq<RawObs>)
    ensures Total(DropNaKeys(raw)) == CompleteTotal(raw)
    decreases |raw|
  {
    if |raw| > 0 {
      var init := raw[..|raw| - 1];
      var last := raw[|raw| - 1];
      DropNaKeysTotal(init);
      var d := DropNaKeys(raw);
      if KeysFilled(last.group) {
        assert d == DropNaKeys(init) + [Obs(last.childId, Key(last.group), last.count)];
        assert d[..|d| - 1] == DropNaKeys(init);
      } else {
        assert d == DropNaKeys(init);
      }
    }
  }

  /** `groupby` on rows as read: every group comes from a row whose grouping cells are all
      filled, every such row has its group, and the groups hold exactly those rows' votes, so
      a row with a NaN grouping cell is never scored. */
  lemma RollUpDropsNaKeys(raw: seq<RawObs>)
    ensures forall t :: t in RollUp(DropNaKeys(raw)) ==>
              exists r :: r in raw && KeysFilled(r.group) && Key(r.group) == t.group
    ensures forall r :: r in raw && KeysFilled(r.group) ==>
              exists t :: t in RollUp(DropNaKeys(raw)) && t.group == Key(r.group)
    ensures TallyTotal(RollUp(DropNaKeys(raw))) == CompleteTotal(raw)
  {
    var data := DropNaKeys(raw);
    var grouped := RollUp(data);
    forall t | t in grouped
      ensures exists r :: r in raw && KeysFilled(r.group) && Key(r.group) == t.group
    {
      var i :| 0 <= i < |grouped| && grouped[i] == t;
      var j :| 0 <= j < |data| && Groups(data)[j] == t.group;
      assert data[j] in data;
    }
    forall r | r in raw && KeysFilled(r.group)
      ensures exists t :: t in grouped && t.group == Key(r.group)
    {
      var o := Obs(r.childId, Key(r.group), r.count);
      assert o in data;
      var i :| 0 <= i < |grouped| && grouped[i].group == o.group;
      assert grouped[i] in grouped;
    }
    RollUpKeepsTotal(data);
    DropNaKeysTotal(raw);
  }

  // ----- analysis units -----

  /** An analysis unit: one contest, reporting-unit type and count type. */
  datatype UnitKey = UnitKey(contestId: int, ruTypeId: int, countType: string)

  function UnitOf(t: Tally): UnitKey {
    UnitKey(t.group.contestId, t.group.ruTypeId, t.group.countType)
  }

  /** The analysis units in order of first appearance; a unit's id is its position here. */
  function Units(grouped: seq<Tally>): (units: seq<UnitKey>)
    ensures NoDups(units)
    ensures forall t :: t in grouped ==> UnitOf(t) in units
    ensures forall u :: u in units ==> exists t :: t in grouped && UnitOf(t) == u
  {
    var keys := seq(|grouped|, i requires 0 <= i < |grouped| => UnitOf(grouped[i]));
    assert forall t :: t in grouped ==> UnitOf(t) in keys by {
      forall t | t in grouped ensures UnitOf(t) in keys {
        var i :| 0 <= i < |grouped| && grouped[i] == t;
        assert keys[i] == UnitOf(t);
      }
    }
    Distinct(keys)
  }

  /** The rolled-up rows of one unit (`df_with_units[df_with_units['unit_id'] == unit_id]`). */
  function UnitRows(grouped: seq<Tally>, u: UnitKey): (rows: seq<Tally>)
    ensures forall t :: t in rows <==> t in grouped && UnitOf(t) == u
  {
    Filter(grouped, (t: Tally) => UnitOf(t) == u)
  }

  /** The distinct selections of some rows (`temp_df['Selection'].unique()`). */
  function Selections(rows: seq<Tally>): (sels: seq<string>)
    ensures NoDups(sels)
    ensures forall s :: s in sels <==> exists t :: t in rows && t.group.selection == s
  {
    var col := seq(|rows|, i requires 0 <= i < |rows| => rows[i].group.selection);
    assert forall t :: t in rows ==> t.group.selection in col by {
      forall t | t in rows ensures t.group.selection in col {
        var i :| 0 <= i < |rows| && rows[i] == t;
        assert col[i] == t.group.selection;
      }
    }
    Distinct(col)
  }

  /** Summed count of the rows for one selection (`groupby('Selection')['Count'].sum()`). */
  function SelectionTotal(rows: seq<Tally>, sel: string): int
    decreases |rows|
  {
    if |rows| == 0 then 0
    else (if rows[0].group.selection == sel then rows[0].count else 0) + SelectionTotal(rows[1..], sel)
  }

  /** The `total` rows of a contest at one reporting-unit type, over all units. */
  function TotalRows(grouped: seq<Tally>, contestId: int, ruTypeId: int): (rows: seq<Tally>)
    ensures forall t :: t in rows <==> (t in grouped && t.group.contestId == contestId
                                        && t.group.countType == "total" && t.group.ruTypeId == ruTypeId)
  {
    Filter(grouped, (t: Tally) => t.group.contestId == contestId && t.group.countType == "total"
                                  && t.group.ruTypeId == ruTypeId)
  }

  /** Sort key of a selection: its summed `total` count, largest first. */
  function ByTotal(totals: seq<Tally>): string -> Key {
    (s: string) => Single(Value(SelectionTotal(totals, s) as real))
  }

  /** `counts.index[0:2]`: the (at most) two selections with the largest `total` counts. */
  function TopTwo(grouped: seq<Tally>, contestId: int, ruTypeId: int): seq<string>
  {
    var totals := TotalRows(grouped, contestId, ruTypeId);
    Take(SortDesc(Selections(totals), ByTotal(totals)), 2)
  }

  /** There are at most two leading selections, and two whenever the contest has two. */
  lemma TopTwoSize(grouped: seq<Tally>, contestId: int, ruTypeId: int)
    ensures |TopTwo(grouped, contestId, ruTypeId)| <= 2
    ensures |Selections(TotalRows(grouped, contestId, ruTypeId))| >= 2
            ==> |TopTwo(grouped, contestId, ruTypeId)| == 2
  {
  }

  /** A leading selection is a selection of the contest's `total` rows, and no selection left
      out has a larger total. */
  lemma TopTwoLeads(grouped: seq<Tally>, contestId: int, ruTypeId: int, s: string, other: string)
    requires s in TopTwo(grouped, contestId, ruTypeId)
    ensures s in Selections(TotalRows(grouped, contestId, ruTypeId))
    ensures other in Selections(TotalRows(grouped, contestId, ruTypeId))
            && other !in TopTwo(grouped, contestId, ruTypeId)
            ==> SelectionTotal(TotalRows(grouped, contestId, ruTypeId), s)
                >= SelectionTotal(TotalRows(grouped, contestId, ruTypeId), other)
  {
    var totals := TotalRows(grouped, contestId, ruTypeId);
    var sels := Selections(totals);
    var sorted := SortDesc(sels, ByTotal(totals));
    SameElements(sorted, sels, s);
    if other in sels && other !in Take(sorted, 2) {
      SameElements(sorted, sels, other);
      TakeLeads(sorted, ByTotal(totals), 2, s, other);
    }
  }

  /** The rows of a unit that are analysed: only the leading two selections' rows when the unit
      has more than two selections. */
  function Reduce(grouped: seq<Tally>, u: UnitKey): (rows: seq<Tally>)
    ensures forall t :: t in rows ==> t in grouped && UnitOf(t) == u
    ensures forall t :: t in rows && |Selections(UnitRows(grouped, u))| > 2
              ==> t.group.selection in TopTwo(grouped, u.contestId, u.ruTypeId)
    ensures forall t :: (&& t in UnitRows(grouped, u) && |Selections(UnitRows(grouped, u))| > 2
                         && t.group.selection in TopTwo(grouped, u.contestId, u.ruTypeId)) ==> t in rows
    ensures |Selections(UnitRows(grouped, u))| <= 2 ==> rows == UnitRows(grouped, u)
  {
    var rows := UnitRows(grouped, u);
    if |Selections(rows)| > 2 then
      var top := TopTwo(grouped, u.contestId, u.ruTypeId);
      Filter(rows, (t: Tally) => t.group.selection in top)
    else rows
  }

  // ----- pivot table -----

  /** The reporting units of some rows, each once. */
  function Rus(rows: seq<Tally>): (rus: seq<int>)
    ensures NoDups(rus)
    ensures forall r :: r in rus <==> exists t :: t in rows && t.group.ruId == r
  {
    var col := seq(|rows|, i requires 0 <= i < |rows| => rows[i].group.ruId);
    assert forall t :: t in rows ==> t.group.ruId in col by {
      forall t | t in rows ensures t.group.ruId in col {
        var i :| 0 <= i < |rows| && rows[i] == t;
        assert col[i] == t.group.ruId;
      }
    }
    Distinct(col)
  }

  function CountSum(rows: seq<Tally>): int
    decreases |rows|
  {
    if |rows| == 0 then 0 else rows[0].count + CountSum(rows[1..])
  }

  /** One pivot-table cell: the mean count of the rows of a reporting unit and a selection
      (`pivot_table`'s default aggregate), None (NaN) when there is no such row. */
  function Cell(rows: seq<Tally>, ru: int, sel: string): (c: Option<real>)
    ensures c.None? <==> forall t :: t in rows ==> !(t.group.ruId == ru && t.group.selection == sel)
  {
    var m := Filter(rows, (t: Tally) => t.group.ruId == ru && t.group.selection == sel);
    if |m| == 0 then None
    else
      assert m[0] in m;
      Some(CountSum(m) as real / |m| as real)
  }

  /** A reporting unit's row of the pivot table: one cell per selection of the unit. */
  function Cells(rows: seq<Tally>, ru: int): (cells: seq<Option<real>>)
    ensures |cells| == |Selections(rows)|
  {
    var sels := Selections(rows);
    seq(|sels|, i requires 0 <= i < |sels| => Cell(rows, ru, sels[i]))
  }

  /** `pivot_df.drop(...).sum(axis=1)`: the sum of a pivot row, NaN cells skipped. */
  function RowSum(cells: seq<Option<real>>): real
    decreases |cells|
  {
    if |cells| == 0 then 0.0
    else (if cells[0].Some? then cells[0].value else 0.0) + RowSum(cells[1..])
  }

  predicate Complete(cells: seq<Option<real>>) {
    forall i :: 0 <= i < |cells| ==> cells[i].Some?
  }

  function Values(cells: seq<Option<real>>): (vs: seq<real>)
    requires Complete(cells)
    ensures |vs| == |cells| && forall i :: 0 <= i < |cells| ==> vs[i] == cells[i].value
  {
    seq(|cells|, i requires 0 <= i < |cells| => cells[i].value)
  }

  /** The vote-share vector of a pivot row: each cell over the row total. A row with a NaN cell
      has a NaN numpy total, so every share is NaN and `nan_to_num` turns it into 0. */
  function Shares(cells: seq<Option<real>>): (v: Vec)
    requires RowSum(cells) != 0.0
    ensures |v| == |cells|
    ensures Complete(cells) ==> forall i :: 0 <= i < |v| ==> v[i] == cells[i].value / RowSum(cells)
    ensures !Complete(cells) ==> forall i :: 0 <= i < |v| ==> v[i] == 0.0
  {
    if Complete(cells) then Scale(Values(cells), RowSum(cells))
    else seq(|cells|, i => 0.0)
  }

  lemma {:induction false} RowSumValues(cells: seq<Option<real>>)
    requires Complete(cells)
    ensures RowSum(cells) == Sum(Values(cells))
    decreases |cells|
  {
    if |cells| > 0 {
      RowSumValues(cells[1..]);
      assert Values(cells)[1..] == Values(cells[1..]);
    }
  }

  /** The shares of a complete pivot row sum to one. */
  lemma SharesSumToOne(cells: seq<Option<real>>)
    requires RowSum(cells) != 0.0 && Complete(cells)
    ensures Sum(Shares(cells)) == 1.0
  {
    var total := RowSum(cells);
    RowSumValues(cells);
    SumScale(Values(cells), total);
    assert Shares(cells) == Scale(Values(cells), total);
    calc {
      Sum(Shares(cells));
    ==
      total / total;
    == { DivideSelf(total); }
      1.0;
    }
  }

  lemma DivideSelf(x: real)
    requires x != 0.0
    ensures x / x == 1.0
  {
  }

  lemma DivideThenMultiply(a: real, b: real)
    requires b != 0.0
    ensures a / b * b == a
  {
  }

  /** The reporting units above the noise floor: more than 100 votes over the kept selections. */
  function Kept(rows: seq<Tally>): (kept: seq<int>)
    ensures NoDups(kept)
    ensures forall r :: r in kept <==> r in Rus(rows) && RowSum(Cells(rows, r)) > 100.0
  {
    var aboveFloor := (r: int) => RowSum(Cells(rows, r)) > 100.0;
    FilterNoDups(Rus(rows), aboveFloor);
    Filter(Rus(rows), aboveFloor)
  }

  // ----- scoring -----

  /** `vote_proportions`: the share vectors of the kept reporting units, in order. */
  function ShareVectors(rows: seq<Tally>, kept: seq<int>): (vecs: seq<Vec>)
    requires forall r :: r in kept ==> RowSum(Cells(rows, r)) > 100.0
    ensures |vecs| == |kept|
  {
    seq(|kept|, i requires 0 <= i < |kept| => assert kept[i] in kept; Shares(Cells(rows, kept[i])))
  }

  /** The distance sums of the kept reporting units' share vectors, in the order of `Kept`. */
  function KeptDistances(rows: seq<Tally>, dist: (Vec, Vec) -> real): (d: seq<real>)
    ensures |d| == |Kept(rows)|
  {
    DistanceSums(ShareVectors(rows, Kept(rows)), dist)
  }

  /** `euclidean_zscore(vote_proportions)`: one score per kept reporting unit, in the order of
      `Kept`. */
  function KeptScores(rows: seq<Tally>, dist: (Vec, Vec) -> real, sqrt: Root): (scores: seq<real>)
    ensures |scores| == |Kept(rows)|
    ensures forall i, j :: 0 <= i < |scores| && 0 <= j < |scores| ==>
              (KeptDistances(rows, dist)[i] < KeptDistances(rows, dist)[j] <==> scores[i] < scores[j])
  {
    EuclideanZScore(ShareVectors(rows, Kept(rows)), dist, sqrt)
  }

  /** A row of unit `k` after the left merge with the scored pivot rows. */
  function ScoreRow(t: Tally, k: nat, rows: seq<Tally>, kept: seq<int>, scores: seq<real>): (s: Scored)
    requires |scores| == |kept|
    ensures s.row == t && s.unitId == k
    ensures s.score.Some? <==> t.group.ruId in kept
    ensures s.score.Some? ==> s.score.value == scores[IndexOf(kept, t.group.ruId)]
    ensures s.total.Some? <==> s.score.Some?
    ensures s.total.Some? ==> s.total.value == RowSum(Cells(rows, t.group.ruId))
  {
    var ru := t.group.ruId;
    if ru in kept then Scored(t, k, Some(RowSum(Cells(rows, ru))), Some(scores[IndexOf(kept, ru)]))
    else Scored(t, k, None, None)
  }

  /** The output rows of unit `k`: nothing when fewer than five reporting units are kept;
      otherwise every analysed row, with its reporting unit's row total and score when the
      unit was kept (the left merge leaves NaN for the others). */
  function UnitOutput(grouped: seq<Tally>, units: seq<UnitKey>, k: nat,
                      dist: (Vec, Vec) -> real, sqrt: Root): (out: seq<Scored>)
    requires k < |units|
    ensures |Kept(Reduce(grouped, units[k]))| < 5 ==> out == []
    ensures |Kept(Reduce(grouped, units[k]))| >= 5 ==> |out| == |Reduce(grouped, units[k])|
  {
    var rows := Reduce(grouped, units[k]);
    if |Kept(rows)| < 5 then [] else ScoreBlock(rows, k, dist, sqrt)
  }

  /** The analysed rows of unit `k` merged with the scores of their kept reporting units. */
  function ScoreBlock(rows: seq<Tally>, k: nat, dist: (Vec, Vec) -> real, sqrt: Root): (out: seq<Scored>)
    ensures |out| == |rows|
  {
    var kept := Kept(rows);
    var scores := KeptScores(rows, dist, sqrt);
    seq(|rows|, i requires 0 <= i < |rows| => ScoreRow(rows[i], k, rows, kept, scores))
  }

  /** What every output row of unit `k` satisfies: it is an analysed row of the unit, the unit
      kept at least five reporting units, only the leading two selections of a contest with more
      remain, and the row has a score (and its row total) exactly when its reporting unit has
      more than 100 votes. */
  lemma UnitOutputRow(grouped: seq<Tally>, units: seq<UnitKey>, k: nat,
                      dist: (Vec, Vec) -> real, sqrt: Root, r: Scored)
    requires k < |units| && r in UnitOutput(grouped, units, k, dist, sqrt)
    ensures r.unitId == k
    ensures r.row in Reduce(grouped, units[k]) && r.row in grouped && UnitOf(r.row) == units[k]
    ensures |Kept(Reduce(grouped, units[k]))| >= 5
    ensures |Selections(UnitRows(grouped, units[k]))| > 2
            ==> r.row.group.selection in TopTwo(grouped, units[k].contestId, units[k].ruTypeId)
    ensures r.score.Some? <==> RowSum(Cells(Reduce(grouped, units[k]), r.row.group.ruId)) > 100.0
    ensures r.score.Some? ==> r.row.group.ruId in Kept(Reduce(grouped, units[k]))
                              && r.score.value == KeptScores(Reduce(grouped, units[k]), dist, sqrt)
                                                    [IndexOf(Kept(Reduce(grouped, units[k])), r.row.group.ruId)]
    ensures r.total.Some? <==> r.score.Some?
    ensures r.total.Some? ==> r.total.value == RowSum(Cells(Reduce(grouped, units[k]), r.row.group.ruId))
  {
    var rows := Reduce(grouped, units[k]);
    var i := UnitOutputAt(grouped, units, k, dist, sqrt, r);
    assert r.row in rows;
    assert rows[i].group.ruId in Rus(rows);
  }

  /** A row of a scored block is the merge of the analysed row at the same position. */
  lemma ScoreBlockAt(rows: seq<Tally>, k: nat, dist: (Vec, Vec) -> real, sqrt: Root, r: Scored) returns (i: nat)
    requires r in ScoreBlock(rows, k, dist, sqrt)
    ensures i < |rows| && r.row == rows[i] && r.unitId == k
    ensures r.score.Some? <==> r.row.group.ruId in Kept(rows)
    ensures r.score.Some? ==> r.score.value == KeptScores(rows, dist, sqrt)[IndexOf(Kept(rows), r.row.group.ruId)]
    ensures r.total.Some? <==> r.score.Some?
    ensures r.total.Some? ==> r.total.value == RowSum(Cells(rows, r.row.group.ruId))
  {
    var out := ScoreBlock(rows, k, dist, sqrt);
    i :| 0 <= i < |out| && out[i] == r;
    var kept := Kept(rows);
    var scores := KeptScores(rows, dist, sqrt);
    assert r == ScoreRow(rows[i], k, rows, kept, scores);
  }

  /** An output row of unit `k` is the merge of the analysed row at the same position. */
  lemma UnitOutputAt(grouped: seq<Tally>, units: seq<UnitKey>, k: nat,
                     dist: (Vec, Vec) -> real, sqrt: Root, r: Scored) returns (i: nat)
    requires k < |units| && r in UnitOutput(grouped, units, k, dist, sqrt)
    ensures |Kept(Reduce(grouped, units[k]))| >= 5
    ensures i < |Reduce(grouped, units[k])| && r.row == Reduce(grouped, units[k])[i] && r.unitId == k
    ensures r.score.Some? <==> r.row.group.ruId in Kept(Reduce(grouped, units[k]))
    ensures r.score.Some? ==> r.score.value == KeptScores(Reduce(grouped, units[k]), dist, sqrt)
                                                 [IndexOf(Kept(Reduce(grouped, units[k])), r.row.group.ruId)]
    ensures r.total.Some? <==> r.score.Some?
    ensures r.total.Some? ==> r.total.value == RowSum(Cells(Reduce(grouped, units[k]), r.row.group.ruId))
  {
    var rows := Reduce(grouped, units[k]);
    i := ScoreBlockAt(rows, k, dist, sqrt, r);
  }

  /** Two scored rows of a block compare as the distance sums of their reporting units' share
      vectors do. */
  lemma BlockScoresFollowDistances(rows: seq<Tally>, k: nat, dist: (Vec, Vec) -> real, sqrt: Root,
                                   r1: Scored, r2: Scored)
    requires r1 in ScoreBlock(rows, k, dist, sqrt) && r2 in ScoreBlock(rows, k, dist, sqrt)
    requires r1.row.group.ruId in Kept(rows) && r2.row.group.ruId in Kept(rows)
    ensures r1.score.Some? && r2.score.Some?
    ensures r1.score.value < r2.score.value
            <==> KeptDistances(rows, dist)[IndexOf(Kept(rows), r1.row.group.ruId)]
                 < KeptDistances(rows, dist)[IndexOf(Kept(rows), r2.row.group.ruId)]
  {
    var _ := ScoreBlockAt(rows, k, dist, sqrt, r1);
    var _ := ScoreBlockAt(rows, k, dist, sqrt, r2);
  }

  /** Two scored rows of a unit compare as the distance sums of their reporting units' share
      vectors do: the row whose vote split lies farther from the others scores higher. */
  lemma ScoresFollowDistances(grouped: seq<Tally>, units: seq<UnitKey>, k: nat,
                              dist: (Vec, Vec) -> real, sqrt: Root, r1: Scored, r2: Scored)
    requires k < |units|
    requires r1 in UnitOutput(grouped, units, k, dist, sqrt) && r2 in UnitOutput(grouped, units, k, dist, sqrt)
    requires r1.row.group.ruId in Kept(Reduce(grouped, units[k]))
    requires r2.row.group.ruId in Kept(Reduce(grouped, units[k]))
    ensures var rows := Reduce(grouped, units[k]);
      && r1.score.Some? && r2.score.Some?
      && (r1.score.value < r2.score.value
          <==> KeptDistances(rows, dist)[IndexOf(Kept(rows), r1.row.group.ruId)]
               < KeptDistances(rows, dist)[IndexOf(Kept(rows), r2.row.group.ruId)])
  {
    var rows := Reduce(grouped, units[k]);
    assert UnitOutput(grouped, units, k, dist, sqrt) == ScoreBlock(rows, k, dist, sqrt);
    BlockScoresFollowDistances(rows, k, dist, sqrt, r1, r2);
  }

  /** The output blocks of all units, one per unit id. */
  function Blocks(grouped: seq<Tally>, units: seq<UnitKey>, dist: (Vec, Vec) -> real, sqrt: Root)
    : (bs: seq<seq<Scored>>)
    ensures |bs| == |units|
    ensures forall k :: 0 <= k < |units| ==> bs[k] == UnitOutput(grouped, units, k, dist, sqrt)
  {
    seq(|units|, k requires 0 <= k < |units| => UnitOutput(grouped, units, k, dist, sqrt))
  }

  /** The result of `assign_anomaly_score` on the input rows: the blocks of the units in
      unit order (the `pd.concat` accumulator). */
  function AnomalyScores(data: seq<Obs>, dist: (Vec, Vec) -> real, sqrt: Root): seq<Scored>
  {
    var grouped := RollUp(data);
    Concat(Blocks(grouped, Units(grouped), dist, sqrt))
  }

  /** Every output row belongs to a scored analysis unit and obeys its thresholds. */
  lemma AnomalyScoreRow(data: seq<Obs>, dist: (Vec, Vec) -> real, sqrt: Root, r: Scored)
    requires r in AnomalyScores(data, dist, sqrt)
    ensures var units := Units(RollUp(data));
      && r.unitId < |units|
      && r.row in RollUp(data) && UnitOf(r.row) == units[r.unitId]
      && |Kept(Reduce(RollUp(data), units[r.unitId]))| >= 5
      && (|Selections(UnitRows(RollUp(data), units[r.unitId]))| > 2
          ==> r.row.group.selection in TopTwo(RollUp(data), units[r.unitId].contestId, units[r.unitId].ruTypeId))
      && (r.score.Some? <==> RowSum(Cells(Reduce(RollUp(data), units[r.unitId]), r.row.group.ruId)) > 100.0)
      && (r.score.Some? ==>
            var rows := Reduce(RollUp(data), units[r.unitId]);
            r.row.group.ruId in Kept(rows)
            && r.score.value == KeptScores(rows, dist, sqrt)[IndexOf(Kept(rows), r.row.group.ruId)])
      && (r.total.Some? <==> r.score.Some?)
  {
    var grouped := RollUp(data);
    var units := Units(grouped);
    var k := ConcatMember(Blocks(grouped, units, dist, sqrt), r);
    UnitOutputRow(grouped, units, k, dist, sqrt, r);
  }

  /** One turn of the loop of `assign_anomaly_score`: appending the next unit's rows extends
      the concatenation by one block. */
  lemma ScoreStep(grouped: seq<Tally>, k: nat, dist: (Vec, Vec) -> real, sqrt: Root, df: seq<Scored>)
    requires k < |Units(grouped)|
    requires df == Concat(Blocks(grouped, Units(grouped), dist, sqrt)[..k])
    ensures df + UnitOutput(grouped, Units(grouped), k, dist, sqrt)
         == Concat(Blocks(grouped, Units(grouped), dist, sqrt)[..k + 1])
  {
    ConcatStep(Blocks(grouped, Units(grouped), dist, sqrt), k);
  }

  /** After the last turn the concatenation holds every block. */
  lemma ScoreDone(grouped: seq<Tally>, k: nat, dist: (Vec, Vec) -> real, sqrt: Root, df: seq<Scored>)
    requires k == |Units(grouped)|
    requires df == Concat(Blocks(grouped, Units(grouped), dist, sqrt)[..k])
    ensures df == Concat(Blocks(grouped, Units(grouped), dist, sqrt))
  {
    assert Blocks(grouped, Units(grouped), dist, sqrt)[..k] == Blocks(grouped, Units(grouped), dist, sqrt);
  }

  /** The loop of `assign_anomaly_score`: the units are scored one after the other and their
      rows concatenated. */
  method ScoreUnits(grouped: seq<Tally>, dist: (Vec, Vec) -> real, sqrt: Root) returns (df: seq<Scored>)
    ensures df == Concat(Blocks(grouped, Units(grouped), dist, sqrt))
  {
    var units := Units(grouped);
    df := [];
    var k := 0;
    while k < |units|
      invariant k <= |units|
      invariant df == Concat(Blocks(grouped, Units(grouped), dist, sqrt)[..k])
    {
      ScoreStep(grouped, k, dist, sqrt, df);
      df := df + UnitOutput(grouped, units, k, dist, sqrt);
      k := k + 1;
    }
    ScoreDone(grouped, k, dist, sqrt, df);
  }

  /** `assign_anomaly_score`: the rows rolled up to the reporting-unit type of each contest,
      then scored unit by unit. */
  method AssignAnomalyScore(raw: seq<RawObs>, dist: (Vec, Vec) -> real, sqrt: Root)
    returns (df: seq<Scored>)
    ensures df == AnomalyScores(DropNaKeys(raw), dist, sqrt)
  {
    var grouped := RollUp(DropNaKeys(raw));
    df := ScoreUnits(grouped, dist, sqrt);
  }
}
