/** `check_dependencies`: some columns of a jurisdiction file name entries of another file (an
    ElectionDistrict is a ReportingUnit, a PrimaryParty is a Party, ...). Every value such a
    column holds must be listed in the other file. */
module Dependencies {

  import opened Wrappers
  import opened Seqs

  /** `juris_dependency_dictionary()`: dependent column to the element it refers to. */
  const DependencyTable: map<string, string> := map[
    "ElectionDistrict" := "ReportingUnit",
    "Office" := "Office",
    "PrimaryParty" := "Party",
    "Party" := "Party",
    "Election" := "Election"]

  /** A column of a jurisdiction file, its empty cells read as "". */
  datatype Column = Column(name: string, cells: seq<string>)

  datatype DepError =
    | ElementFileMissing(element: string)
    | TargetFileMissing(target: string)
    | NullReferences(column: string)
    | Unmatched(column: string, element: string, target: string, offenders: seq<string>)

  /** The changed elements and errors so far; `stopped` once a target file is missing. */
  datatype DepState = DepState(changed: set<string>, errs: seq<DepError>, stopped: bool)

  /** `missing = [x for x in ed if x not in ru]`, `ed` being the column's distinct values in
      order of first appearance. */
  function Missing(cells: seq<string>, ru: seq<string>): (missing: seq<string>)
    ensures forall x :: x in missing <==> x in cells && x !in ru
    ensures NoDups(missing)
  {
    FilterNoDups(Distinct(cells), Unlisted(ru));
    Filter(Distinct(cells), Unlisted(ru))
  }

  function Unlisted(ru: seq<string>): string -> bool {
    x => x !in ru
  }

  /** The names listed in a target file: the jurisdiction's own file when it exists, else the
      one shared by all jurisdictions, else none. */
  function TargetNames(target: string, local: map<string, seq<string>>, shared: map<string, seq<string>>): (r: Option<seq<string>>)
    ensures r.None? <==> target !in local && target !in shared
    ensures target in local ==> r == Some(local[target])
    ensures target !in local && target in shared ==> r == Some(shared[target])
  {
    if target in local then Some(local[target])
    else if target in shared then Some(shared[target])
    else None
  }

  /** The check of one dependent column of `element` against the names of its target. */
  function CheckColumn(st: DepState, element: string, col: Column,
                       local: map<string, seq<string>>, shared: map<string, seq<string>>): DepState
    requires col.name in DependencyTable
  {
    var target := DependencyTable[col.name];
    match TargetNames(target, local, shared)
    case None => DepState(st.changed, st.errs + [TargetFileMissing(target)], true)
    case Some(ru) =>
      var missing := Missing(col.cells, ru);
      if |missing| == 1 && missing == [""] then
        if col.name != "PrimaryParty" then st.(errs := st.errs + [NullReferences(col.name)]) else st
      else if missing != [] then
        DepState(st.changed + {element, target}, st.errs + [Unmatched(col.name, element, target, missing)], false)
      else st
  }

  /** The dependent columns of a file, in its column order. */
  function Dependent(columns: seq<Column>): (dep: seq<Column>)
    ensures forall c :: c in dep <==> c in columns && c.name in DependencyTable
  {
    Filter(columns, (c: Column) => c.name in DependencyTable)
  }

  /** The loop over the dependent columns, up to the first missing target file. */
  function CheckColumns(st: DepState, element: string, dep: seq<Column>, local: map<string, seq<string>>, shared: map<string, seq<string>>): DepState
    requires forall c :: c in dep ==> c.name in DependencyTable
    decreases |dep|
  {
    if |dep| == 0 || st.stopped then st
    else CheckColumns(CheckColumn(st, element, dep[0], local, shared), element, dep[1..], local, shared)
  }

  /** The result of `check_dependencies`: None for the element file is its absence. */
  function CheckDeps(element: string, file: Option<seq<Column>>, local: map<string, seq<string>>, shared: map<string, seq<string>>): (set<string>, seq<DepError>)
  {
    match file
    case None => ({}, [ElementFileMissing(element)])
    case Some(columns) =>
      var st := CheckColumns(DepState({}, [], false), element, Dependent(columns), local, shared);
      (st.changed, st.errs)
  }

  // ----- properties -----

  /** One column whose target file exists: no error when every value it holds is listed; only
      a "null" error (none for PrimaryParty) when the one unlisted value is the empty one;
      otherwise the element and the target are marked changed and the unlisted values
      reported. */
  lemma ColumnRule(st: DepState, element: string, col: Column,
                   local: map<string, seq<string>>, shared: map<string, seq<string>>)
    requires col.name in DependencyTable
    requires TargetNames(DependencyTable[col.name], local, shared).Some?
    ensures var target := DependencyTable[col.name];
      var ru := TargetNames(target, local, shared).value;
      var missing := Missing(col.cells, ru);
      var r := CheckColumn(st, element, col, local, shared);
      && (missing == [] ==> r == st)
      && (missing == [""] ==>
            r == st.(errs := st.errs + if col.name == "PrimaryParty" then [] else [NullReferences(col.name)]))
      && (missing != [] && missing != [""] ==>
            r == DepState(st.changed + {element, target}, st.errs + [Unmatched(col.name, element, target, missing)], false))
  {
  }

  /** A column whose target file exists nowhere stops the check with that error. */
  lemma MissingTargetStops(st: DepState, element: string, col: Column,
                           local: map<string, seq<string>>, shared: map<string, seq<string>>)
    requires col.name in DependencyTable
    requires DependencyTable[col.name] !in local && DependencyTable[col.name] !in shared
    ensures var r := CheckColumn(st, element, col, local, shared);
      r.stopped && r.changed == st.changed && r.errs == st.errs + [TargetFileMissing(DependencyTable[col.name])]
  {
  }

  /** Only the element and the elements it refers to are ever marked changed. */
  lemma {:induction false} ChangedAreElementOrTargets(st: DepState, element: string, dep: seq<Column>,
                                                      local: map<string, seq<string>>, shared: map<string, seq<string>>, x: string)
    requires forall c :: c in dep ==> c.name in DependencyTable
    requires x in CheckColumns(st, element, dep, local, shared).changed
    ensures x in st.changed || x == element || exists c :: c in dep && x == DependencyTable[c.name]
    decreases |dep|
  {
    if |dep| > 0 && !st.stopped {
      var st1 := CheckColumn(st, element, dep[0], local, shared);
      assert forall c :: c in dep[1..] ==> c in dep;
      ChangedAreElementOrTargets(st1, element, dep[1..], local, shared, x);
      if x in st1.changed && x !in st.changed && x != element {
        assert x == DependencyTable[dep[0].name];
      }
    }
  }

  /** When every target file exists and every value of every dependent column is listed in
      it, the check reports nothing and changes nothing. */
  lemma {:induction false} AllListedNoErrors(st: DepState, element: string, dep: seq<Column>,
                                             local: map<string, seq<string>>, shared: map<string, seq<string>>)
    requires forall c :: c in dep ==> c.name in DependencyTable && TargetNames(DependencyTable[c.name], local, shared).Some?
    requires forall c, x :: c in dep && x in c.cells ==> x in TargetNames(DependencyTable[c.name], local, shared).value
    ensures CheckColumns(st, element, dep, local, shared) == st
    decreases |dep|
  {
    if |dep| > 0 && !st.stopped {
      var c := dep[0];
      var ru := TargetNames(DependencyTable[c.name], local, shared).value;
      var ed := Distinct(c.cells);
      assert forall i :: 0 <= i < |ed| ==> ed[i] in c.cells;
      FilterNone(ed, Unlisted(ru));
      assert forall d :: d in dep[1..] ==> d in dep;
      AllListedNoErrors(st, element, dep[1..], local, shared);
    }
  }

  /** `check_dependencies`: the dependent columns are checked one after the other, stopping at
      the first target file that is missing. */
  method CheckDependencies(element: string, file: Option<seq<Column>>,
                           local: map<string, seq<string>>, shared: map<string, seq<string>>)
    returns (changed: set<string>, errs: seq<DepError>)
    ensures (changed, errs) == CheckDeps(element, file, local, shared)
  {
    if file.None? {
      return {}, [ElementFileMissing(element)];
    }
    var dep := Dependent(file.value);
    var st := DepState({}, [], false);
    var i := 0;
    while i < |dep| && !st.stopped
      invariant i <= |dep|
      invariant CheckDeps(element, file, local, shared) == (var f := CheckColumns(st, element, dep[i..], local, shared); (f.changed, f.errs))
    {
      assert dep[i..][1..] == dep[i + 1..];
      st := CheckColumn(st, element, dep[i], local, shared);
      i := i + 1;
    }
    changed, errs := st.changed, st.errs;
  }
}
