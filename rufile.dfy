/** `check_ru_file`: the internal consistency of a jurisdiction's ReportingUnit file. A
    reporting-unit name is a `;`-separated path such as `Texas;Travis County;Precinct 7`;
    every proper prefix of that path must itself be a listed name, every path must start with
    the jurisdiction's name, and no name may be listed twice. */
module RuFile {

  import opened Wrappers
  import opened Seqs
  import opened Strings

  /** A line of ReportingUnit.txt as read: its Name and its ReportingUnitType, each None for
      an empty (NaN) cell. */
  datatype RuLine = RuLine(name: Option<string>, ruType: Option<string>)

  /** A row whose Name is filled. */
  datatype RuRow = RuRow(name: string, ruType: Option<string>)

  /** The errors the check reports, each with the names it lists. */
  datatype RuError =
    | MissingParents(parents: set<string>)
    | NotUnderJurisdiction(leadings: set<string>)
    | DuplicateNames(names: set<string>)

  /** `{";".join(components[: j + 1]) for j in range(len(components) - 1)}`. */
  function ParentsOf(name: string): set<string> {
    var c := Split(name, ';');
    set j | 0 <= j < |c| - 1 :: JoinedPrefix(c, j)
  }

  /** `";".join(components[: j + 1])`. */
  function JoinedPrefix(c: seq<string>, j: nat): string
    requires j < |c|
  {
    Join(c[..j + 1], ';')
  }

  /** `components[0]`. */
  function Leading(name: string): string {
    Split(name, ';')[0]
  }

  /** The parents of a name are exactly the texts that stand before one of its separators. */
  lemma ParentIsPrefix(name: string, p: string)
    ensures p in ParentsOf(name) <==> |p| < |name| && name[|p|] == ';' && name[..|p|] == p
  {
    var c := Split(name, ';');
    JoinSplit(name, ';');
    if p in ParentsOf(name) {
      var j :| 0 <= j < |c| - 1 && p == JoinedPrefix(c, j);
      assert c == c[..j + 1] + c[j + 1..];
      JoinAppend(c[..j + 1], c[j + 1..], ';');
      assert name == p + [';'] + Join(c[j + 1..], ';');
    }
    if |p| < |name| && name[|p|] == ';' && name[..|p|] == p {
      var b := name[|p| + 1..];
      assert name == p + [';'] + b;
      SplitAround(p, ';', b);
      var m := |Split(p, ';')|;
      assert c[..m] == Split(p, ';');
      JoinSplit(p, ';');
      assert p == JoinedPrefix(c, m - 1);
    }
  }

  /** The leading component is the text before the first separator. */
  lemma LeadingIsFirstComponent(name: string)
    ensures ';' !in Leading(name)
    ensures |Leading(name)| <= |name| && name[..|Leading(name)|] == Leading(name)
    ensures |Leading(name)| < |name| ==> name[|Leading(name)|] == ';'
  {
    var c := Split(name, ';');
    JoinSplit(name, ';');
    if |c| > 1 {
      assert c == c[..1] + c[1..];
      JoinAppend(c[..1], c[1..], ';');
      assert name == c[0] + [';'] + Join(c[1..], ';');
    }
  }

  /** The names listed (`ru["Name"].unique()`). */
  function Names(rows: seq<RuRow>): set<string> {
    set r | r in rows :: r.name
  }

  /** The parents of all names. */
  function AllParents(rows: seq<RuRow>): (ps: set<string>)
    ensures forall p :: p in ps <==> exists r :: r in rows && p in ParentsOf(r.name)
    decreases |rows|
  {
    if |rows| == 0 then {}
    else
      var init := rows[..|rows| - 1];
      assert rows == init + [rows[|rows| - 1]];
      AllParents(init) + ParentsOf(rows[|rows| - 1].name)
  }

  /** The leading components of all names. */
  function AllLeadings(rows: seq<RuRow>): (ls: set<string>)
    ensures forall l :: l in ls <==> exists r :: r in rows && l == Leading(r.name)
    decreases |rows|
  {
    if |rows| == 0 then {}
    else
      var init := rows[..|rows| - 1];
      assert rows == init + [rows[|rows| - 1]];
      AllLeadings(init) + {Leading(rows[|rows| - 1].name)}
  }

  /** Rows of a name with a ReportingUnitType (`groupby(["Name"]).count()` counts the cells
      that are not empty). */
  function TypedCount(rows: seq<RuRow>, name: string): nat
    decreases |rows|
  {
    if |rows| == 0 then 0
    else (if rows[0].name == name && rows[0].ruType.Some? then 1 else 0) + TypedCount(rows[1..], name)
  }

  lemma {:induction false} TypedCountListed(rows: seq<RuRow>, name: string)
    requires TypedCount(rows, name) > 0
    ensures exists r :: r in rows && r.name == name
    decreases |rows|
  {
    if rows[0].name != name || rows[0].ruType.None? {
      TypedCountListed(rows[1..], name);
      var r :| r in rows[1..] && r.name == name;
      assert r in rows;
    }
  }

  function Duplicated(rows: seq<RuRow>): set<string> {
    set r | r in rows && TypedCount(rows, r.name) > 1 :: r.name
  }

  /** The errors, in the order the check adds them. */
  function RuErrors(parents: set<string>, leadings: set<string>, rows: seq<RuRow>, trueName: string): seq<RuError> {
    var missing := set p | p in parents && p !in Names(rows);
    var bad := set l | l in leadings && l != trueName;
    var dup := Duplicated(rows);
    (if missing != {} then [MissingParents(missing)] else [])
    + (if bad != {} then [NotUnderJurisdiction(bad)] else [])
    + (if dup != {} then [DuplicateNames(dup)] else [])
  }

  /** The result of `check_ru_file` on the rows of the file. */
  function CheckRu(rows: seq<RuRow>, trueName: string): seq<RuError> {
    RuErrors(AllParents(rows), AllLeadings(rows), rows, trueName)
  }

  /** A parent is reported missing exactly when it stands before a separator of some name and
      is not itself a listed name. */
  lemma MissingParentReported(rows: seq<RuRow>, trueName: string, p: string)
    ensures (exists e :: e in CheckRu(rows, trueName) && e.MissingParents? && p in e.parents)
        <==> (exists r :: r in rows && |p| < |r.name| && r.name[|p|] == ';' && r.name[..|p|] == p)
             && p !in Names(rows)
  {
    var missing := set q | q in AllParents(rows) && q !in Names(rows);
    forall r | r in rows ensures p in ParentsOf(r.name) <==> |p| < |r.name| && r.name[|p|] == ';' && r.name[..|p|] == p {
      ParentIsPrefix(r.name, p);
    }
    if p in missing {
      assert MissingParents(missing) in CheckRu(rows, trueName);
    }
  }

  /** A leading component is reported exactly when it differs from the jurisdiction's name. */
  lemma BadLeadingReported(rows: seq<RuRow>, trueName: string, l: string)
    ensures (exists e :: e in CheckRu(rows, trueName) && e.NotUnderJurisdiction? && l in e.leadings)
        <==> (exists r :: r in rows && Leading(r.name) == l) && l != trueName
  {
    var bad := set x | x in AllLeadings(rows) && x != trueName;
    if l in bad {
      assert NotUnderJurisdiction(bad) in CheckRu(rows, trueName);
    }
  }

  /** A name is reported as duplicated exactly when more than one of its rows has a type. */
  lemma DuplicateReported(rows: seq<RuRow>, trueName: string, name: string)
    ensures (exists e :: e in CheckRu(rows, trueName) && e.DuplicateNames? && name in e.names)
        <==> TypedCount(rows, name) > 1
  {
    var dup := Duplicated(rows);
    if TypedCount(rows, name) > 1 {
      TypedCountListed(rows, name);
      assert name in dup;
      assert DuplicateNames(dup) in CheckRu(rows, trueName);
    }
  }

  /** The rows of the file when every Name is filled. None when one is empty: on that NaN
      `r["Name"].split(";")` raises AttributeError. */
  function Filled(lines: seq<RuLine>): (rows: Option<seq<RuRow>>)
    ensures rows.None? <==> exists l :: l in lines && l.name.None?
    ensures rows.Some? ==>
              && |rows.value| == |lines|
              && forall i :: 0 <= i < |lines| ==>
                   lines[i].name.Some? && rows.value[i] == RuRow(lines[i].name.value, lines[i].ruType)
    decreases |lines|
  {
    if |lines| == 0 then Some([])
    else
      var init := lines[..|lines| - 1];
      var last := lines[|lines| - 1];
      assert lines == init + [last];
      match (Filled(init), last.name)
      case (Some(rows), Some(name)) => Some(rows + [RuRow(name, last.ruType)])
      case _ => None
  }

  /** `check_ru_file` on the lines of the file: None where it raises on an empty Name, otherwise
      the errors of the filled rows. */
  function CheckRuLines(lines: seq<RuLine>, trueName: string): (r: Option<seq<RuError>>)
    ensures r.None? <==> exists l :: l in lines && l.name.None?
    ensures r.Some? ==> Filled(lines).Some? && r.value == CheckRu(Filled(lines).value, trueName)
  {
    match Filled(lines)
    case None => None
    case Some(rows) => Some(CheckRu(rows, trueName))
  }

  /** `check_ru_file`: the parents and leading components are gathered row by row, stopping at
      the first empty Name, then the three checks are made. */
  method CheckRuFile(lines: seq<RuLine>, trueName: string) returns (errs: Option<seq<RuError>>)
    ensures errs == CheckRuLines(lines, trueName)
  {
    var parents: set<string> := {};
    var leadings: set<string> := {};
    var i := 0;
    while i < |lines|
      invariant i <= |lines|
      invariant Filled(lines[..i]).Some?
      invariant parents == AllParents(Filled(lines[..i]).value)
      invariant leadings == AllLeadings(Filled(lines[..i]).value)
    {
      assert lines[..i + 1][..i] == lines[..i];
      match lines[i].name
      case None =>
        assert lines[i] in lines;
        return None;
      case Some(name) =>
        ghost var rows := Filled(lines[..i]).value;
        ghost var row := RuRow(name, lines[i].ruType);
        assert Filled(lines[..i + 1]) == Some(rows + [row]);
        assert (rows + [row])[..|rows|] == rows;
        parents := parents + ParentsOf(name);
        leadings := leadings + {Leading(name)};
        i := i + 1;
    }
    assert lines[..i] == lines;
    errs := Some(RuErrors(parents, leadings, Filled(lines).value, trueName));
  }
}
