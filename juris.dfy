/** Small pieces of the jurisdiction-file handling: the directory name of a jurisdiction, the
    names listed twice in a file, the removal of contentless lines, the order in which the
    template files are processed, and the name of a primary contest. */
module Juris {

  import opened Wrappers
  import opened Seqs
  import opened Strings

  // ----- jurisdiction names -----

  /** `system_name_from_true_name`: spaces become hyphens (`North Carolina` is kept in the
      directory `North-Carolina`). */
  function SystemName(trueName: string): (r: string)
    ensures |r| == |trueName| && ' ' !in r
    ensures forall i :: 0 <= i < |r| && trueName[i] == ' ' ==> r[i] == '-'
    ensures forall i :: 0 <= i < |r| && trueName[i] != ' ' ==> r[i] == trueName[i]
  {
    ReplaceChar(trueName, ' ', '-')
  }

  /** The true name `ensure_juris_files` reads off a directory name: hyphens become spaces. */
  function TrueName(systemName: string): (r: string)
    ensures |r| == |systemName| && '-' !in r
    ensures forall i :: 0 <= i < |r| && systemName[i] == '-' ==> r[i] == ' '
    ensures forall i :: 0 <= i < |r| && systemName[i] != '-' ==> r[i] == systemName[i]
  {
    ReplaceChar(systemName, '-', ' ')
  }

  /** The two renamings undo each other on names without the character the other introduces. */
  lemma NameRoundTrips(trueName: string, systemName: string)
    ensures '-' !in trueName ==> TrueName(SystemName(trueName)) == trueName
    ensures ' ' !in systemName ==> SystemName(TrueName(systemName)) == systemName
  {
    if '-' !in trueName {
      ReplaceCharRoundTrip(trueName, ' ', '-');
    }
    if ' ' !in systemName {
      ReplaceCharRoundTrip(systemName, '-', ' ');
    }
  }

  // ----- find_ambiguous_names -----

  /** The names of a name column, an empty (NaN) cell being None, which equals nothing. */
  function Present(cells: seq<Option<string>>): (r: seq<string>)
    ensures forall x :: x in r <==> Some(x) in cells
    decreases |cells|
  {
    if |cells| == 0 then []
    else
      assert cells == [cells[0]] + cells[1..];
      (if cells[0].Some? then [cells[0].value] else []) + Present(cells[1..])
  }

  lemma {:induction false} PresentCount(cells: seq<Option<string>>, x: string)
    ensures Count(Present(cells), x) == Count(cells, Some(x))
    decreases |cells|
  {
    if |cells| > 0 {
      PresentCount(cells[1..], x);
      var head := if cells[0].Some? then [cells[0].value] else [];
      CountAppend(head, Present(cells[1..]), x);
    }
  }

  lemma {:induction false} CountAppend(a: seq<string>, b: seq<string>, x: string)
    ensures Count(a + b, x) == Count(a, x) + Count(b, x)
    decreases |a|
  {
    if |a| > 0 {
      assert (a + b)[1..] == a[1..] + b;
      CountAppend(a[1..], b, x);
    } else {
      assert a + b == b;
    }
  }

  /** `find_ambiguous_names`: the names held by more than one row, each once, in order of first
      appearance. */
  function AmbiguousNames(cells: seq<Option<string>>): (r: seq<string>)
    ensures NoDups(r)
  {
    var names := Present(cells);
    var repeated := (x: string) => Count(names, x) > 1;
    FilterNoDups(Distinct(names), repeated);
    Filter(Distinct(names), repeated)
  }

  /** A name is reported exactly when more than one row holds it. */
  lemma AmbiguousIff(cells: seq<Option<string>>, x: string)
    ensures x in AmbiguousNames(cells) <==> Count(cells, Some(x)) > 1
  {
    PresentCount(cells, x);
    CountPositive(Present(cells), x);
  }

  // ----- remove_empty_lines -----

  /** A cell that is neither empty text nor a pair of quotes (a NaN cell counts as content). */
  predicate Content(c: Option<string>) {
    c != Some("") && c != Some("\"\"")
  }

  predicate HasContent(row: seq<Option<string>>) {
    exists i :: 0 <= i < |row| && Content(row[i])
  }

  /** A dictionary line also needs something other than "" after its first entry. */
  predicate HasEntryAfterFirst(row: seq<Option<string>>) {
    exists i :: 1 <= i < |row| && row[i] != Some("")
  }

  function RemoveEmptyLines(rows: seq<seq<Option<string>>>, element: string): (r: seq<seq<Option<string>>>)
    ensures forall row :: row in r <==>
      row in rows && HasContent(row) && (element == "dictionary" ==> HasEntryAfterFirst(row))
    ensures |r| <= |rows|
  {
    var working := Filter(rows, HasContent);
    if element == "dictionary" then Filter(working, HasEntryAfterFirst) else working
  }

  /** A line that passes both masks of `remove_empty_lines`. */
  predicate Survives(element: string, row: seq<Option<string>>) {
    HasContent(row) && (element == "dictionary" ==> HasEntryAfterFirst(row))
  }

  /** The kept lines stay in the order of the input: the `i`-th of them is the input line at
      position `pos[i]`, these positions increase, and every line that passes the masks has its
      place among them. */
  lemma RemoveEmptyLinesKeepsOrder(rows: seq<seq<Option<string>>>, element: string) returns (pos: seq<nat>)
    ensures |pos| == |RemoveEmptyLines(rows, element)|
    ensures forall i :: 0 <= i < |pos| ==> pos[i] < |rows| && rows[pos[i]] == RemoveEmptyLines(rows, element)[i]
    ensures forall i, j :: 0 <= i < j < |pos| ==> pos[i] < pos[j]
    ensures forall k :: 0 <= k < |rows| && Survives(element, rows[k]) ==> k in pos
  {
    var keep := row => Survives(element, row);
    if element == "dictionary" {
      FilterTwice(rows, HasContent, HasEntryAfterFirst, keep);
    } else {
      FilterSame(rows, HasContent, keep);
    }
    pos := FilterPositions(rows, keep);
  }

  /** Removing the contentless lines a second time removes nothing more. */
  lemma RemoveEmptyLinesIdempotent(rows: seq<seq<Option<string>>>, element: string)
    ensures RemoveEmptyLines(RemoveEmptyLines(rows, element), element) == RemoveEmptyLines(rows, element)
  {
    var r := RemoveEmptyLines(rows, element);
    assert forall i :: 0 <= i < |r| ==> r[i] in r;
    FilterAll(r, HasContent);
    if element == "dictionary" {
      FilterAll(r, HasEntryAfterFirst);
    }
  }

  // ----- ensure_juris_files: the order of the template files -----

  /** The files that are created first, in this order. */
  const FirstTemplates: seq<string> := ["dictionary", "ReportingUnit", "Office", "CandidateContest"]

  /** `[x[:-4] for x in os.listdir(templates_dir)]`, the listing order being a parameter. */
  function TemplateNames(files: seq<string>): (r: seq<string>)
    ensures |r| == |files|
    ensures forall i, name :: 0 <= i < |files| && files[i] == name + ".txt" ==> r[i] == name
  {
    seq(|files|, i requires 0 <= i < |files| => SliceTo(files[i], -4))
  }

  /** A template other than the four that come first. */
  predicate Later(name: string) {
    name !in FirstTemplates
  }

  /** `ordered_list + [x for x in template_list if x not in ordered_list]`. */
  function OrderTemplates(names: seq<string>): (r: seq<string>)
    ensures |r| >= 4 && r[..4] == FirstTemplates
    ensures forall x :: x in r <==> x in FirstTemplates || x in names
    ensures forall i :: 4 <= i < |r| ==> r[i] !in FirstTemplates
  {
    var r := FirstTemplates + Filter(names, Later);
    assert r[..4] == FirstTemplates;
    assert forall i :: 4 <= i < |r| ==> r[i] == Filter(names, Later)[i - 4] && r[i] in Filter(names, Later);
    r
  }

  /** The other templates keep the listing's order: the `i`-th of them is the listing's entry
      at position `pos[i]`, these positions increase, and every listed entry that is not one of
      the four has its place among them. */
  lemma OrderTemplatesKeepsOrder(names: seq<string>) returns (pos: seq<nat>)
    ensures |pos| == |OrderTemplates(names)| - 4
    ensures forall i :: 0 <= i < |pos| ==> pos[i] < |names| && names[pos[i]] == OrderTemplates(names)[4 + i]
    ensures forall i, j :: 0 <= i < j < |pos| ==> pos[i] < pos[j]
    ensures forall k :: 0 <= k < |names| && names[k] !in FirstTemplates ==> k in pos
  {
    pos := FilterPositions(names, Later);
    assert OrderTemplates(names) == FirstTemplates + Filter(names, Later);
  }

  /** No file is processed twice when the listing names each template once. */
  lemma OrderTemplatesNoDups(names: seq<string>)
    requires NoDups(names)
    ensures NoDups(OrderTemplates(names))
  {
    FilterNoDups(names, Later);
    var r := OrderTemplates(names);
    var tail := Filter(names, Later);
    assert r == FirstTemplates + tail;
    forall i, j | 0 <= i < j < |r| ensures r[i] != r[j] {
      if j >= 4 {
        assert r[j] == tail[j - 4];
        if i >= 4 {
          assert r[i] == tail[i - 4];
        }
      }
    }
  }

  // ----- primary -----

  /** `primary`: the name of a party's primary contest, `<contest> (<party>)`, or None when the
      row has no such field. */
  function Primary(row: map<string, string>, party: string, contestField: string): (r: Option<string>)
    ensures r.None? <==> contestField !in row
  {
    if contestField in row then Some(row[contestField] + " (" + party + ")") else None
  }

  /** The contest and the party can be read back off the primary's name. */
  lemma PrimaryRoundTrip(row: map<string, string>, party: string, contestField: string)
    requires contestField in row
    ensures var pr := Primary(row, party, contestField).value;
      var contest := row[contestField];
      && SliceTo(pr, -(|party| + 3)) == contest
      && |pr| == |contest| + |party| + 3
      && pr[|contest|..|contest| + 2] == " (" && pr[|pr| - 1] == ')'
      && pr[|contest| + 2..|pr| - 1] == party
  {
  }
}
