/** Reporting-unit hierarchy lookups (`child_rus_by_id`, `short_name`). The composition
    relation lists every reporting unit as one of its own parents. */
module Hierarchy {

  import opened Seqs
  import opened Strings
  import opened Wrappers

  /** One row of the composition table: `child` is nested in `parent` (possibly itself). */
  datatype Composition = Composition(parent: int, child: int)

  /** A reporting-unit type: the enumerated type id and the free text used for "other" types. */
  datatype RuType = RuType(typeId: int, otherType: string)

  /** Children of the listed parents, in table order, each once (the `unique()` column). */
  function ChildColumn(cruj: seq<Composition>, parents: seq<int>): (ids: seq<int>)
    ensures forall c :: c in ids <==> exists e :: e in cruj && e.parent in parents && e.child == c
    decreases |cruj|
  {
    if |cruj| == 0 then []
    else
      assert cruj == [cruj[0]] + cruj[1..];
      (if cruj[0].parent in parents then [cruj[0].child] else []) + ChildColumn(cruj[1..], parents)
  }

  /** `child_rus_by_id`: the ids of all children of `parents`, restricted to reporting units of
      exactly the given type (id and other-type text) when a type is given. `units` is the
      ReportingUnit table, keyed by id. */
  function ChildRusById(cruj: seq<Composition>, units: map<int, RuType>, parents: seq<int>,
                        ruType: Option<RuType>): (children: seq<int>)
    ensures NoDups(children)
    ensures forall c :: c in children ==> exists e :: e in cruj && e.parent in parents && e.child == c
    ensures forall c :: c in children && ruType.Some? ==> c in units && units[c] == ruType.value
    ensures forall e :: e in cruj && e.parent in parents
              && (ruType.Some? ==> e.child in units && units[e.child] == ruType.value)
              ==> e.child in children
  {
    var all := Distinct(ChildColumn(cruj, parents));
    match ruType
    case None => all
    case Some(t) =>
      var hasType := (c: int) => c in units && units[c] == t;
      FilterNoDups(all, hasType);
      Filter(all, hasType)
  }

  /** With the self-inclusive composition table, a parent is among its own children
      (when it has the requested type). */
  lemma ParentIsOwnChild(cruj: seq<Composition>, units: map<int, RuType>, parents: seq<int>,
                         ruType: Option<RuType>, p: int)
    requires forall u :: u in units ==> Composition(u, u) in cruj
    requires p in parents && p in units
    requires ruType.Some? ==> units[p] == ruType.value
    ensures p in ChildRusById(cruj, units, parents, ruType)
  {
    assert Composition(p, p) in cruj;
  }

  /** `short_name`: the text after the last separator (all of it when there is none). */
  function ShortName(text: string, sep: char): string
  {
    var parts := Split(text, sep);
    parts[|parts| - 1]
  }

  /** The short name is the longest suffix of the text that holds no separator. */
  lemma {:induction false} ShortNameIsLastComponent(text: string, sep: char)
    ensures var r := ShortName(text, sep);
      && |r| <= |text| && text[|text| - |r|..] == r && sep !in r
      && (|r| < |text| ==> text[|text| - |r| - 1] == sep)
  {
    var parts := Split(text, sep);
    var n := |parts|;
    JoinSplit(text, sep);
    if n > 1 {
      assert parts == parts[..n - 1] + [parts[n - 1]];
      JoinAppend(parts[..n - 1], [parts[n - 1]], sep);
    }
  }
}
