/** `recast_options`: the munger's option values, read as text, are converted key by key to the
    types a type table names (integer, list of integers, string, list of strings, and the
    `count_location` option that carries an optional list). A value that cannot be converted
    is replaced and reported as a `warn-munger` warning; a few failures are not caught and
    end the call. */
module Options {

  import opened Wrappers
  import opened Seqs
  import opened Strings

  /** An option value: the text read from the munger file or what it was converted to. */
  datatype OptVal = Str(s: string) | Int(i: int) | Null | IntList(ints: seq<int>) | StrList(strs: seq<string>)

  datatype WarnKind = NotInteger | NotIntegerList | NotStringList

  /** A `warn-munger` warning about one option of one munger. */
  datatype Warning = Warning(munger: string, key: string, kind: WarnKind)

  /** The options dictionary and the warnings gathered so far. */
  datatype State = State(options: map<string, OptVal>, warnings: seq<Warning>)

  const CountLocation := "count_location"
  const FieldsByName := "count_fields_by_name"
  const ColumnNumbers := "count_column_numbers"
  const FileType := "file_type"

  /** Python truthiness of a value. */
  predicate Truthy(v: OptVal) {
    match v
    case Str(s) => s != ""
    case Int(i) => i != 0
    case Null => false
    case IntList(l) => l != []
    case StrList(l) => l != []
  }

  /** `int(v)`; None is the exception (text that is not an integer, or a value of another kind). */
  function ToInt(v: OptVal): Option<int> {
    match v
    case Str(s) => ParseInt(s)
    case Int(i) => Some(i)
    case _ => None
  }

  /** `[int(s) for s in parts]`; None when one of them is not an integer. */
  function ParseAll(parts: seq<string>): (r: Option<seq<int>>)
    ensures r.Some? <==> forall i :: 0 <= i < |parts| ==> ParseInt(parts[i]).Some?
    ensures r.Some? ==> |r.value| == |parts| && forall i :: 0 <= i < |parts| ==> ParseInt(parts[i]) == Some(r.value[i])
    decreases |parts|
  {
    if |parts| == 0 then Some([])
    else
      match (ParseAll(parts[..|parts| - 1]), ParseInt(parts[|parts| - 1]))
      case (Some(init), Some(last)) => Some(init + [last])
      case _ => None
  }

  /** `[int(s) for s in v.split(",")]`; None for text with a non-integer piece or a value that
      is not text. */
  function ToIntList(v: OptVal): Option<seq<int>> {
    if v.Str? then ParseAll(Split(v.s, ',')) else None
  }

  function SetOption(st: State, k: string, v: OptVal): State {
    st.(options := st.options[k := v])
  }

  function Warn(st: State, k: string, v: OptVal, w: Warning): State {
    State(st.options[k := v], st.warnings + [w])
  }

  /** The `int` / `integer` branch. */
  function IntStep(st: State, munger: string, k: string, v: OptVal): State {
    match ToInt(v)
    case Some(i) => SetOption(st, k, Int(i))
    case None => Warn(st, k, Null, Warning(munger, k, NotInteger))
  }

  /** The `list-of-integers` branch. */
  function IntListStep(st: State, munger: string, k: string, v: OptVal): State {
    match ToIntList(v)
    case Some(l) => SetOption(st, k, IntList(l))
    case None => Warn(st, k, IntList([]), Warning(munger, k, NotIntegerList))
  }

  /** The `list-of-strings` branch; the `.split` fails on a value that is not text. */
  function StrListStep(st: State, munger: string, k: string, v: OptVal): State {
    if v != Str("") then
      if v.Str? then SetOption(st, k, StrList(Split(v.s, ',')))
      else Warn(st, k, StrList([]), Warning(munger, k, NotStringList))
    else SetOption(st, k, StrList([]))
  }

  /** The `count_location` branch. None is an uncaught exception: no `file_type` option
      (KeyError), a value that is not text (AttributeError) or a `by_number` piece that is not
      an integer (ValueError). */
  function CountLocationStep(st: State, v: OptVal): Option<State> {
    if !Truthy(v) then Some(st)
    else if FileType !in st.options then None
    else if st.options[FileType] == Str("xml") || st.options[FileType] == Str("json-nested") then Some(st)
    else if !v.Str? then None
    else
      var head := Split(v.s, ':')[0];
      if head == "by_name" then
        var fields := Split(DropPrefix(v.s, 8), ',');
        Some(SetOption(SetOption(st, FieldsByName, StrList(fields)), CountLocation, Str("by_name")))
      else if head == "by_number" then
        match ParseAll(Split(DropPrefix(v.s, 10), ','))
        case None => None
        case Some(cols) => Some(SetOption(SetOption(st, ColumnNumbers, IntList(cols)), CountLocation, Str("by_number")))
      else Some(st)
  }

  /** One pass of the loop body for key `k`; None is an uncaught exception. */
  function Step(st: State, types: map<string, string>, munger: string, k: string): (r: Option<State>)
    requires k in st.options && k in types
    ensures r.Some? ==> st.options.Keys <= r.value.options.Keys
    ensures r.Some? ==> st.warnings <= r.value.warnings && |r.value.warnings| <= |st.warnings| + 1
  {
    var v := st.options[k];
    var ty := types[k];
    if !Truthy(v) then Some(st)
    else if ty == "int" || ty == "integer" then Some(IntStep(st, munger, k, v))
    else if ty == "list-of-integers" then Some(IntListStep(st, munger, k, v))
    else if ty == "str" then Some(if v == Str("") then SetOption(st, k, Null) else st)
    else if ty == "list-of-strings" then Some(StrListStep(st, munger, k, v))
    else if ty == "string-with-opt-list" && k == CountLocation then CountLocationStep(st, v)
    else Some(st)
  }

  /** The loop over the keys in `order`, the iteration order of the key set. */
  function Recast(st: State, types: map<string, string>, munger: string, order: seq<string>): (r: Option<State>)
    requires forall k :: k in order ==> k in st.options && k in types
    ensures r.Some? ==> st.options.Keys <= r.value.options.Keys
    decreases |order|
  {
    if |order| == 0 then Some(st)
    else
      match Recast(st, types, munger, order[..|order| - 1])
      case None => None
      case Some(s1) => Step(s1, types, munger, order[|order| - 1])
  }

  /** The options as read: every value is text. */
  function Lift(options: map<string, string>): (m: map<string, OptVal>)
    ensures m.Keys == options.Keys && forall k :: k in options ==> m[k] == Str(options[k])
  {
    map k | k in options :: Str(options[k])
  }

  // ----- properties of one step -----

  /** A value that is false in Python (the empty string in particular) is left as it is, so the
      branches for an empty string can never run. */
  lemma FalsyUnchanged(st: State, types: map<string, string>, munger: string, k: string)
    requires k in st.options && k in types && !Truthy(st.options[k])
    ensures Step(st, types, munger, k) == Some(st)
  {
  }

  /** A `str` option is never changed. */
  lemma StrTypeUnchanged(st: State, types: map<string, string>, munger: string, k: string)
    requires k in st.options && k in types && types[k] == "str"
    ensures Step(st, types, munger, k) == Some(st)
  {
  }

  /** A step changes only its own key, and for `count_location` one of the two list options. */
  lemma StepFrame(st: State, types: map<string, string>, munger: string, k: string, j: string)
    requires k in st.options && k in types
    requires j != k && (k == CountLocation ==> j != FieldsByName && j != ColumnNumbers)
    requires Step(st, types, munger, k).Some?
    ensures var r := Step(st, types, munger, k).value;
      (j in r.options <==> j in st.options) && (j in st.options ==> r.options[j] == st.options[j])
  {
  }

  /** An integer option holding the text of an integer becomes that integer without warning. */
  lemma IntRoundTrip(st: State, types: map<string, string>, munger: string, k: string, i: int)
    requires k in st.options && k in types && (types[k] == "int" || types[k] == "integer")
    requires st.options[k] == Str(IntToString(i))
    ensures Step(st, types, munger, k) == Some(SetOption(st, k, Int(i)))
  {
    ParseIntToString(i);
  }

  /** Text that is not an integer becomes None, with one `warn-munger` warning. */
  lemma IntFailure(st: State, types: map<string, string>, munger: string, k: string)
    requires k in st.options && k in types && (types[k] == "int" || types[k] == "integer")
    requires st.options[k].Str? && st.options[k].s != "" && ParseInt(st.options[k].s).None?
    ensures Step(st, types, munger, k) == Some(State(st.options[k := Null], st.warnings + [Warning(munger, k, NotInteger)]))
  {
  }

  /** The text of a list of integers: the integers joined with commas. */
  function IntsText(ints: seq<int>): (t: string)
    requires |ints| >= 1
  {
    Join(Rendered(ints), ',')
  }

  function Rendered(ints: seq<int>): (parts: seq<string>)
    ensures |parts| == |ints| && forall i :: 0 <= i < |ints| ==> parts[i] == IntToString(ints[i])
  {
    seq(|ints|, i requires 0 <= i < |ints| => IntToString(ints[i]))
  }

  lemma NoCommaInInt(i: int)
    ensures ',' !in IntToString(i)
  {
    var n: nat := if i < 0 then -i else i;
    var ds := NatToDigits(n);
    assert ',' !in ds by {
      forall j | 0 <= j < |ds| ensures ds[j] != ',' {
        assert IsDigit(ds[j]);
      }
    }
    if i < 0 {
      assert IntToString(i) == "-" + ds;
    }
  }

  /** Integers joined with commas parse back to the same integers. */
  lemma IntsTextParses(ints: seq<int>)
    requires |ints| >= 1
    ensures ParseAll(Split(IntsText(ints), ',')) == Some(ints)
  {
    var parts := Rendered(ints);
    forall i | 0 <= i < |parts| ensures ',' !in parts[i] {
      NoCommaInInt(ints[i]);
    }
    SplitJoin(parts, ',');
    forall i | 0 <= i < |parts| ensures ParseInt(parts[i]) == Some(ints[i]) {
      ParseIntToString(ints[i]);
    }
    assert ParseAll(parts).value == ints;
  }

  /** A `list-of-integers` option holding integers joined with commas becomes that list. */
  lemma IntListRoundTrip(st: State, types: map<string, string>, munger: string, k: string, ints: seq<int>)
    requires |ints| >= 1
    requires k in st.options && k in types && types[k] == "list-of-integers"
    requires st.options[k] == Str(IntsText(ints))
    ensures Step(st, types, munger, k) == Some(SetOption(st, k, IntList(ints)))
  {
    IntsTextParses(ints);
    assert |IntsText(ints)| >= 1;
  }

  /** A `list-of-integers` option with a piece that is not an integer becomes the empty list,
      with one `warn-munger` warning. */
  lemma IntListFailure(st: State, types: map<string, string>, munger: string, k: string, j: nat)
    requires k in st.options && k in types && types[k] == "list-of-integers"
    requires st.options[k].Str? && st.options[k].s != ""
    requires j < |Split(st.options[k].s, ',')| && ParseInt(Split(st.options[k].s, ',')[j]).None?
    ensures Step(st, types, munger, k)
         == Some(State(st.options[k := IntList([])], st.warnings + [Warning(munger, k, NotIntegerList)]))
  {
  }

  /** A `list-of-strings` option becomes the pieces between commas, which join back to it. */
  lemma StrListSplit(st: State, types: map<string, string>, munger: string, k: string)
    requires k in st.options && k in types && types[k] == "list-of-strings"
    requires st.options[k].Str? && st.options[k].s != ""
    ensures var r := Step(st, types, munger, k);
      && r.Some? && r.value.warnings == st.warnings
      && r.value.options[k].StrList?
      && Join(r.value.options[k].strs, ',') == st.options[k].s
  {
    JoinSplit(st.options[k].s, ',');
  }

  /** Text `<tag>:<rest>` with a tag without colon: the first `:`-piece is the tag and
      the text after the colon is the rest. */
  lemma TaggedText(tag: string, rest: string)
    requires ':' !in tag
    ensures Split(tag + ":" + rest, ':')[0] == tag
    ensures DropPrefix(tag + ":" + rest, |tag| + 1) == rest
  {
    var s := tag + ":" + rest;
    assert s == tag + [':'] + rest;
    SplitAround(tag, ':', rest);
    SplitWithoutSep(tag, ':');
    if |s| > |tag| + 1 {
      assert s[|tag| + 1..] == rest;
    }
  }

  /** `count_location` of the form `by_name:<fields>` sets `count_fields_by_name` to the fields
      between commas and `count_location` to `by_name`. */
  lemma CountLocationByName(st: State, types: map<string, string>, munger: string, fields: string)
    requires CountLocation in st.options && CountLocation in types
    requires types[CountLocation] == "string-with-opt-list"
    requires st.options[CountLocation] == Str("by_name:" + fields)
    requires FileType in st.options && st.options[FileType] != Str("xml") && st.options[FileType] != Str("json-nested")
    ensures var r := Step(st, types, munger, CountLocation);
      && r.Some? && r.value.warnings == st.warnings
      && FieldsByName in r.value.options && r.value.options[FieldsByName] == StrList(Split(fields, ','))
      && r.value.options[CountLocation] == Str("by_name")
  {
    TaggedText("by_name", fields);
    assert "by_name" + ":" + fields == "by_name:" + fields;
  }

  /** `count_location` of the form `by_number:<text>` whose comma-separated pieces are the
      integers `cols` (for instance the text `IntsText(cols)`, by IntsTextParses) sets
      `count_column_numbers` to those integers and `count_location` to `by_number`; a piece that
      is not an integer ends the call. */
  lemma CountLocationByNumber(st: State, types: map<string, string>, munger: string, text: string)
    requires CountLocation in st.options && CountLocation in types
    requires types[CountLocation] == "string-with-opt-list"
    requires st.options[CountLocation] == Str("by_number:" + text)
    requires FileType in st.options && st.options[FileType] != Str("xml") && st.options[FileType] != Str("json-nested")
    ensures var r := Step(st, types, munger, CountLocation);
      && (r.None? <==> ParseAll(Split(text, ',')).None?)
      && (r.Some? ==>
            && r.value.warnings == st.warnings
            && ColumnNumbers in r.value.options
            && r.value.options[ColumnNumbers] == IntList(ParseAll(Split(text, ',')).value)
            && r.value.options[CountLocation] == Str("by_number"))
  {
    var v := Str("by_number:" + text);
    assert Truthy(v);
    assert Step(st, types, munger, CountLocation) == CountLocationStep(st, v);
    TaggedText("by_number", text);
    assert "by_number" + ":" + text == v.s;
  }

  /** For the `xml` and `json-nested` file types `count_location` is left as it is. */
  lemma CountLocationNested(st: State, types: map<string, string>, munger: string)
    requires CountLocation in st.options && CountLocation in types
    requires types[CountLocation] == "string-with-opt-list"
    requires FileType in st.options && (st.options[FileType] == Str("xml") || st.options[FileType] == Str("json-nested"))
    ensures Step(st, types, munger, CountLocation) == Some(st)
  {
  }

  // ----- the whole loop -----

  /** An uncaught exception ends the loop: nothing after it runs. */
  lemma {:induction false} RecastStops(st: State, types: map<string, string>, munger: string, order: seq<string>, i: nat)
    requires forall k :: k in order ==> k in st.options && k in types
    requires i <= |order| && Recast(st, types, munger, order[..i]) == None
    ensures Recast(st, types, munger, order) == None
    decreases |order| - i
  {
    if i < |order| {
      assert order[..i + 1][..i] == order[..i];
      RecastStops(st, types, munger, order, i + 1);
    } else {
      assert order[..i] == order;
    }
  }

  /** Keys outside the loop keep their value, except the two lists `count_location` sets. */
  lemma {:induction false} RecastFrame(st: State, types: map<string, string>, munger: string, order: seq<string>, j: string)
    requires forall k :: k in order ==> k in st.options && k in types
    requires j !in order && j != FieldsByName && j != ColumnNumbers
    requires Recast(st, types, munger, order).Some?
    ensures var r := Recast(st, types, munger, order).value;
      (j in r.options <==> j in st.options) && (j in st.options ==> r.options[j] == st.options[j])
    decreases |order|
  {
    if |order| > 0 {
      var init := order[..|order| - 1];
      assert forall k :: k in init ==> k in order;
      RecastFrame(st, types, munger, init, j);
      StepFrame(Recast(st, types, munger, init).value, types, munger, order[|order| - 1], j);
    }
  }

  /** Each key adds at most one warning, after those already gathered. */
  lemma {:induction false} RecastWarnings(st: State, types: map<string, string>, munger: string, order: seq<string>)
    requires forall k :: k in order ==> k in st.options && k in types
    requires Recast(st, types, munger, order).Some?
    ensures var r := Recast(st, types, munger, order).value;
      st.warnings <= r.warnings && |r.warnings| <= |st.warnings| + |order|
    decreases |order|
  {
    if |order| > 0 {
      var init := order[..|order| - 1];
      assert forall k :: k in init ==> k in order;
      RecastWarnings(st, types, munger, init);
    }
  }

  /** `recast_options`: the keys present in both dictionaries, visited in `order`, each converted
      by one step; None is an uncaught exception. */
  method RecastOptions(options: map<string, string>, types: map<string, string>, munger: string, order: seq<string>)
    returns (out: Option<State>)
    requires NoDups(order) && forall k :: k in order <==> k in options && k in types
    ensures out == Recast(State(Lift(options), []), types, munger, order)
  {
    var init := State(Lift(options), []);
    var st := init;
    var i := 0;
    while i < |order|
      invariant i <= |order|
      invariant Recast(init, types, munger, order[..i]) == Some(st)
    {
      assert order[..i + 1][..i] == order[..i];
      var next := Step(st, types, munger, order[i]);
      if next.None? {
        RecastStops(init, types, munger, order, i + 1);
        return None;
      }
      st := next.value;
      i := i + 1;
    }
    assert order[..i] == order;
    out := Some(st);
  }
}
