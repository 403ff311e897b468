/** The deterministic parts of app/main.py: splitting a table into flat and
    nested columns (`data_preprocessing`), choosing the guideline prompt for a
    persona (`set_complexity_level`), and the check in `main` that an
    endpoint URL picked by the language model is a known one. */
module Main {
  import opened Wrappers
  import opened Utils
  import opened Api

  /** One column of a table: its name and its cells, top to bottom. */
  datatype Column = Column(name: string, cells: seq<Json>)

  function Names(cols: seq<Column>): seq<string>
  {
    seq(|cols|, i requires 0 <= i < |cols| => cols[i].name)
  }

  predicate DistinctNames(cols: seq<Column>)
  {
    forall i, j :: 0 <= i < j < |cols| ==> cols[i].name != cols[j].name
  }

  /** The cells of the first column called `name`. */
  function FindColumn(cols: seq<Column>, name: string): (r: Option<seq<Json>>)
    ensures r.Some? <==> name in Names(cols)
  {
    if cols == [] then None
    else
      assert Names(cols) == [cols[0].name] + Names(cols[1..]);
      if cols[0].name == name then Some(cols[0].cells) else FindColumn(cols[1..], name)
  }

  /** The columns not called `name`, order kept. */
  function WithoutColumn(cols: seq<Column>, name: string): (r: seq<Column>)
    ensures |r| <= |cols|
    ensures name !in Names(cols) ==> r == cols
  {
    if cols == [] then []
    else
      assert Names(cols) == [cols[0].name] + Names(cols[1..]);
      (if cols[0].name == name then [] else [cols[0]]) + WithoutColumn(cols[1..], name)
  }

  /** Dropping a name keeps exactly the columns with another name. */
  lemma {:induction false} WithoutColumnMembers(cols: seq<Column>, name: string)
    ensures forall c :: c in WithoutColumn(cols, name) <==> c in cols && c.name != name
    decreases |cols|
  {
    if cols != [] {
      WithoutColumnMembers(cols[1..], name);
      assert cols == [cols[0]] + cols[1..];
    }
  }

  /** A pandas DataFrame, seen as its sequence of columns. */
  class DataFrame {
    var columns: seq<Column>

    constructor (columns: seq<Column>)
      ensures this.columns == columns
    {
      this.columns := columns;
    }

    /** `df.copy()`: a new frame with the same columns. */
    method Copy() returns (c: DataFrame)
      ensures fresh(c) && c.columns == columns
    {
      c := new DataFrame(columns);
    }

    /** `df[name]`: the cells of the named column. */
    function Cells(name: string): (r: Option<seq<Json>>)
      reads this
      ensures r.Some? <==> name in Names(columns)
    {
      FindColumn(columns, name)
    }

    /** `df.drop(columns=[name], inplace=True)`; an unknown name raises
        KeyError and leaves the frame as it was. */
    method Drop(name: string) returns (ok: bool)
      modifies this
      ensures ok <==> name in Names(old(columns))
      ensures ok ==> columns == WithoutColumn(old(columns), name)
      ensures !ok ==> columns == old(columns)
    {
      ok := name in Names(columns);
      if ok {
        columns := WithoutColumn(columns, name);
      }
    }
  }

  /** `ProcessedData`: the remaining flat frame and the nested columns by name. */
  datatype ProcessedData = ProcessedData(mainData: DataFrame, nested: map<string, seq<Json>>)

  /** A column is nested when it has a first cell and that cell is a list or
      an object; no later cell is looked at. */
  function IsNested(c: Column): (b: bool)
    ensures b <==> |c.cells| > 0 && TypeName(c.cells[0]) in {"list", "dict"}
  {
    |c.cells| > 0 && (c.cells[0].JList? || c.cells[0].JObject?)
  }

  /** The columns that stay in `main_data`, in their original order. */
  function FlatColumns(cols: seq<Column>): seq<Column>
  {
    if cols == [] then []
    else
      var n := |cols| - 1;
      FlatColumns(cols[..n]) + (if IsNested(cols[n]) then [] else [cols[n]])
  }

  /** The columns that move to `nested_dataframes`, by name. */
  function NestedColumns(cols: seq<Column>): map<string, seq<Json>>
  {
    if cols == [] then map[]
    else
      var n := |cols| - 1;
      var m := NestedColumns(cols[..n]);
      if IsNested(cols[n]) then m[cols[n].name := cols[n].cells] else m
  }

  /** The flat columns are exactly the original columns that are not nested. */
  lemma {:induction false} FlatColumnsMembers(cols: seq<Column>)
    ensures forall c :: c in FlatColumns(cols) <==> c in cols && !IsNested(c)
    decreases |cols|
  {
    if cols != [] {
      var n := |cols| - 1;
      FlatColumnsMembers(cols[..n]);
      assert cols == cols[..n] + [cols[n]];
    }
  }

  /** With distinct names, a column's name is a key of the nested columns
      exactly when the column is nested, and then it maps to the column's
      cells; no other key appears. */
  lemma {:induction false} NestedColumnsEntries(cols: seq<Column>)
    requires DistinctNames(cols)
    ensures forall i :: 0 <= i < |cols| ==> (cols[i].name in NestedColumns(cols) <==> IsNested(cols[i]))
    ensures forall i :: 0 <= i < |cols| && IsNested(cols[i]) ==> NestedColumns(cols)[cols[i].name] == cols[i].cells
    ensures forall k :: k in NestedColumns(cols) ==> k in Names(cols)
    decreases |cols|
  {
    if cols != [] {
      var n := |cols| - 1;
      var init := cols[..n];
      var last := cols[n];
      assert DistinctNames(init);
      NestedColumnsEntries(init);
      var m := NestedColumns(init);
      var m' := NestedColumns(cols);
      assert m' == if IsNested(last) then m[last.name := last.cells] else m;
      forall i | 0 <= i < |cols|
        ensures cols[i].name in m' <==> IsNested(cols[i])
        ensures IsNested(cols[i]) ==> cols[i].name in m' && m'[cols[i].name] == cols[i].cells
      {
        if i < n {
          assert init[i] == cols[i];
          assert cols[i].name != last.name;
        }
      }
      forall k | k in m' ensures k in Names(cols) {
        if k == last.name {
          assert Names(cols)[n] == k;
        } else {
          assert k in m;
          var i :| 0 <= i < |Names(init)| && Names(init)[i] == k;
          assert Names(cols)[i] == k;
        }
      }
    }
  }

  /** `a` is `b` with some elements left out, the rest in the same order. */
  predicate IsSubsequence<T(==)>(a: seq<T>, b: seq<T>)
    decreases |b|
  {
    if a == [] then true
    else if b == [] then false
    else
      || (a[|a| - 1] == b[|b| - 1] && IsSubsequence(a[..|a| - 1], b[..|b| - 1]))
      || IsSubsequence(a, b[..|b| - 1])
  }

  /** The flat columns keep their original relative order and their values. */
  lemma {:induction false} FlatColumnsInOrder(cols: seq<Column>)
    ensures IsSubsequence(FlatColumns(cols), cols)
    decreases |cols|
  {
    if cols != [] {
      var n := |cols| - 1;
      FlatColumnsInOrder(cols[..n]);
      var f := FlatColumns(cols[..n]);
      if !IsNested(cols[n]) {
        assert (f + [cols[n]])[..|f|] == f;
      } else if f != [] {
        assert FlatColumns(cols) == f;
      }
    }
  }

  /** With distinct names every original column ends up in exactly one place:
      among the flat columns, or under its name among the nested ones, with
      its cells; and nothing else ends up in either. */
  lemma PreprocessPartition(cols: seq<Column>)
    requires DistinctNames(cols)
    ensures forall i :: 0 <= i < |cols| ==>
      (cols[i] in FlatColumns(cols) <==> cols[i].name !in NestedColumns(cols))
    ensures forall i :: 0 <= i < |cols| && IsNested(cols[i]) ==>
      cols[i].name in NestedColumns(cols) && NestedColumns(cols)[cols[i].name] == cols[i].cells
    ensures forall c :: c in FlatColumns(cols) ==> c in cols
    ensures forall k :: k in NestedColumns(cols) ==> k in Names(cols)
  {
    FlatColumnsMembers(cols);
    NestedColumnsEntries(cols);
  }

  /** Preprocessing the flat columns again moves nothing and keeps them as they are. */
  lemma {:induction false} PreprocessIdempotent(cols: seq<Column>)
    ensures FlatColumns(FlatColumns(cols)) == FlatColumns(cols)
    ensures NestedColumns(FlatColumns(cols)) == map[]
    decreases |cols|
  {
    if cols != [] {
      var n := |cols| - 1;
      var f := FlatColumns(cols[..n]);
      PreprocessIdempotent(cols[..n]);
      if !IsNested(cols[n]) {
        var g := f + [cols[n]];
        assert FlatColumns(cols) == g;
        assert g[..|g| - 1] == f && g[|g| - 1] == cols[n];
        assert FlatColumns(g) == FlatColumns(f) + [cols[n]];
        assert NestedColumns(g) == NestedColumns(f);
      } else {
        assert FlatColumns(cols) == f;
      }
    }
  }

  /** Looking a name up past a prefix that does not carry it. */
  lemma {:induction false} FindColumnPast(prefix: seq<Column>, rest: seq<Column>, name: string)
    requires forall c :: c in prefix ==> c.name != name
    ensures FindColumn(prefix + rest, name) == FindColumn(rest, name)
    decreases |prefix|
  {
    if prefix != [] {
      var whole := prefix + rest;
      assert whole[0] == prefix[0] && prefix[0] in prefix;
      assert whole[1..] == prefix[1..] + rest;
      FindColumnPast(prefix[1..], rest, name);
      assert whole != [] && whole[0].name != name;
      assert FindColumn(whole, name) == FindColumn(whole[1..], name);
    } else {
      assert prefix + rest == rest;
    }
  }

  /** Dropping a name from columns that do not carry it changes nothing. */
  lemma {:induction false} WithoutAbsentColumn(cols: seq<Column>, name: string)
    requires forall c :: c in cols ==> c.name != name
    ensures WithoutColumn(cols, name) == cols
    decreases |cols|
  {
    if cols != [] {
      WithoutAbsentColumn(cols[1..], name);
    }
  }

  /** Dropping a name distributes over concatenation. */
  lemma {:induction false} WithoutColumnConcat(a: seq<Column>, b: seq<Column>, name: string)
    ensures WithoutColumn(a + b, name) == WithoutColumn(a, name) + WithoutColumn(b, name)
    decreases |a|
  {
    if a != [] {
      assert (a + b)[0] == a[0];
      assert (a + b)[1..] == a[1..] + b;
      WithoutColumnConcat(a[1..], b, name);
      var head: seq<Column> := if a[0].name == name then [] else [a[0]];
      assert head + (WithoutColumn(a[1..], name) + WithoutColumn(b, name))
        == (head + WithoutColumn(a[1..], name)) + WithoutColumn(b, name);
    } else {
      assert a + b == b;
    }
  }

  /** Before step `i`, no remaining flat column and no later column carries
      the name of column `i`. */
  lemma OtherNamesDiffer(cols: seq<Column>, i: nat)
    requires DistinctNames(cols)
    requires i < |cols|
    ensures forall c :: c in FlatColumns(cols[..i]) ==> c.name != cols[i].name
    ensures forall c :: c in cols[i + 1..] ==> c.name != cols[i].name
  {
    FlatColumnsMembers(cols[..i]);
    forall c | c in FlatColumns(cols[..i]) ensures c.name != cols[i].name {
      var j :| 0 <= j < i && cols[..i][j] == c;
    }
    forall c | c in cols[i + 1..] ensures c.name != cols[i].name {
      var j :| 0 <= j < |cols[i + 1..]| && cols[i + 1..][j] == c;
      assert cols[i + 1 + j] == c;
    }
  }

  /** A column whose name nothing around it carries is found under that name,
      and dropping that name removes exactly that column. */
  lemma DropUnique(before: seq<Column>, c: Column, after: seq<Column>)
    requires forall x :: x in before ==> x.name != c.name
    requires forall x :: x in after ==> x.name != c.name
    ensures FindColumn(before + ([c] + after), c.name) == Some(c.cells)
    ensures WithoutColumn(before + ([c] + after), c.name) == before + after
  {
    FindColumnPast(before, [c] + after, c.name);
    DropUniqueWithout(before, c, after);
  }

  /** Helper of `DropUnique`: its dropping half, kept apart so that each
      proof stays small. */
  lemma DropUniqueWithout(before: seq<Column>, c: Column, after: seq<Column>)
    requires forall x :: x in before ==> x.name != c.name
    requires forall x :: x in after ==> x.name != c.name
    ensures WithoutColumn(before + ([c] + after), c.name) == before + after
  {
    var n := c.name;
    assert WithoutColumn([c], n) == [] by {
      assert [c][1..] == [];
    }
    calc {
      WithoutColumn(before + ([c] + after), n);
      == { WithoutColumnConcat(before, [c] + after, n); }
      WithoutColumn(before, n) + WithoutColumn([c] + after, n);
      == { WithoutAbsentColumn(before, n); WithoutColumnConcat([c], after, n); }
      before + ([] + WithoutColumn(after, n));
      == { WithoutAbsentColumn(after, n); assert [] + after == after; }
      before + after;
    }
  }

  /** Step `i` of `data_preprocessing` finds column `i` under its name and,
      when it drops it, leaves every other column in place. */
  lemma PreprocessStep(cols: seq<Column>, i: nat)
    requires DistinctNames(cols)
    requires i < |cols|
    ensures FindColumn(FlatColumns(cols[..i]) + cols[i..], cols[i].name) == Some(cols[i].cells)
    ensures WithoutColumn(FlatColumns(cols[..i]) + cols[i..], cols[i].name) == FlatColumns(cols[..i]) + cols[i + 1..]
  {
    OtherNamesDiffer(cols, i);
    assert cols[i..] == [cols[i]] + cols[i + 1..];
    DropUnique(FlatColumns(cols[..i]), cols[i], cols[i + 1..]);
  }

  /** Step `i` extends the flat and nested results by column `i`. */
  lemma PreprocessExtend(cols: seq<Column>, i: nat)
    requires i < |cols|
    ensures IsNested(cols[i]) ==> FlatColumns(cols[..i + 1]) == FlatColumns(cols[..i])
    ensures !IsNested(cols[i]) ==>
      FlatColumns(cols[..i + 1]) + cols[i + 1..] == FlatColumns(cols[..i]) + cols[i..]
    ensures NestedColumns(cols[..i + 1]) ==
      if IsNested(cols[i]) then NestedColumns(cols[..i])[cols[i].name := cols[i].cells]
      else NestedColumns(cols[..i])
  {
    assert cols[..i + 1][..i] == cols[..i];
    var f := FlatColumns(cols[..i]);
    if !IsNested(cols[i]) {
      calc {
        FlatColumns(cols[..i + 1]) + cols[i + 1..];
        (f + [cols[i]]) + cols[i + 1..];
        f + ([cols[i]] + cols[i + 1..]);
        { assert [cols[i]] + cols[i + 1..] == cols[i..]; }
        f + cols[i..];
      }
    }
  }

  /** `data_preprocessing`: copies the frame, walks its columns, and for each
      nested column records its cells under its name and drops it from the
      copy. The input frame is left unchanged. */
  method DataPreprocessing(data: DataFrame) returns (p: ProcessedData)
    requires DistinctNames(data.columns)
    ensures unchanged(data)
    ensures fresh(p.mainData)
    ensures p.mainData.columns == FlatColumns(data.columns)
    ensures p.nested == NestedColumns(data.columns)
  {
    var mainData := data.Copy();
    var nested: map<string, seq<Json>> := map[];
    var cols := mainData.columns;
    for i := 0 to |cols|
      invariant mainData.columns == FlatColumns(cols[..i]) + cols[i..]
      invariant nested == NestedColumns(cols[..i])
    {
      var name := cols[i].name;
      PreprocessStep(cols, i);
      PreprocessExtend(cols, i);
      var column := mainData.Cells(name);
      assert column.value == cols[i].cells;
      if |column.value| > 0 && (column.value[0].JList? || column.value[0].JObject?) {
        nested := nested[name := column.value];
        var _ := mainData.Drop(name);
      }
    }
    assert cols[..|cols|] == cols;
    p := ProcessedData(mainData, nested);
  }

  /** One entry of personas.json. */
  datatype Persona = Persona(name: string, tuning: string)

  /** `i` is the position of the first persona called `name`. */
  predicate FirstNamed(personas: seq<Persona>, name: string, i: int)
  {
    && 0 <= i < |personas|
    && personas[i].name == name
    && forall j :: 0 <= j < i ==> personas[j].name != name
  }

  /** `next((p['tuning'] for p in personas if p['name'] == persona), None)`. */
  function FindTuning(personas: seq<Persona>, name: string): (r: Option<string>)
    ensures r.None? <==> forall i :: 0 <= i < |personas| ==> personas[i].name != name
    ensures r.Some? ==> exists i :: FirstNamed(personas, name, i) && r.value == personas[i].tuning
  {
    if personas == [] then None
    else if personas[0].name == name then
      assert FirstNamed(personas, name, 0);
      Some(personas[0].tuning)
    else
      var rest := personas[1..];
      assert forall i :: 0 < i < |personas| ==> personas[i] == rest[i - 1];
      var r := FindTuning(rest, name);
      if r.None? then r
      else
        var i :| FirstNamed(rest, name, i) && r.value == rest[i].tuning;
        assert FirstNamed(personas, name, i + 1);
        r
  }

  /** `OutputType.VISUALIZATION` and `OutputType.TEXT`. */
  datatype OutputType = VisualizationOutput | TextOutput

  /** The six guideline prompts of app/prompts.py, kept opaque. */
  datatype Guideline =
    | Lvl0VizPrompt | Lvl0ExpPrompt
    | Lvl1VizPrompt | Lvl1ExpPrompt
    | Lvl2VizPrompt | Lvl2ExpPrompt

  /** The complexity level a prompt is written for. */
  function GuidelineLevel(g: Guideline): nat
  {
    match g
    case Lvl0VizPrompt | Lvl0ExpPrompt => 0
    case Lvl1VizPrompt | Lvl1ExpPrompt => 1
    case Lvl2VizPrompt | Lvl2ExpPrompt => 2
  }

  /** The output type a prompt is written for. */
  function GuidelineOutput(g: Guideline): OutputType
  {
    match g
    case Lvl0VizPrompt | Lvl1VizPrompt | Lvl2VizPrompt => VisualizationOutput
    case _ => TextOutput
  }

  /** The if/elif chain of `set_complexity_level`: levels 0, 1 and 2 pick the
      visualization prompt for `VISUALIZATION` and the explanation prompt for
      any other output type; any other level is an error. */
  function SelectGuideline(level: int, outputType: OutputType): (r: Option<Guideline>)
    ensures r.Some? <==> 0 <= level <= 2
    ensures r.Some? ==> GuidelineLevel(r.value) == level && GuidelineOutput(r.value) == outputType
  {
    if level == 0 then Some(if outputType == VisualizationOutput then Lvl0VizPrompt else Lvl0ExpPrompt)
    else if level == 1 then Some(if outputType == VisualizationOutput then Lvl1VizPrompt else Lvl1ExpPrompt)
    else if level == 2 then Some(if outputType == VisualizationOutput then Lvl2VizPrompt else Lvl2ExpPrompt)
    else None
  }

  /** Every prompt is selected by its own level and output type, so the
      selection is a bijection onto the six prompts. */
  lemma SelectGuidelineRoundTrip(g: Guideline)
    ensures SelectGuideline(GuidelineLevel(g), GuidelineOutput(g)) == Some(g)
  {
    match g
    case Lvl0VizPrompt =>
    case Lvl0ExpPrompt =>
    case Lvl1VizPrompt =>
    case Lvl1ExpPrompt =>
    case Lvl2VizPrompt =>
    case Lvl2ExpPrompt =>
  }

  /** `set_complexity_level`: the first persona with the given name supplies a
      tuning text, which the classifier (a language-model call) turns into a
      level; a missing persona, an empty tuning, a failed classification or a
      level outside 0..2 gives `None`. */
  function SetComplexityLevel(
    personas: seq<Persona>, persona: string, outputType: OutputType,
    classify: string -> Option<int>): (r: Option<Guideline>)
    ensures r.Some? <==>
      var t := FindTuning(personas, persona);
      t.Some? && t.value != "" && classify(t.value).Some? && 0 <= classify(t.value).value <= 2
    ensures r.Some? ==>
      && GuidelineLevel(r.value) == classify(FindTuning(personas, persona).value).value
      && GuidelineOutput(r.value) == outputType
  {
    match FindTuning(personas, persona)
    case None => None
    case Some(userDescription) =>
      if userDescription == "" then None
      else
        match classify(userDescription)
        case None => None
        case Some(level) => SelectGuideline(level, outputType)
  }

  /** The check in `main`: the URL picked by the language model is acted on
      only when it is non-empty and equals the full URL of a known record. */
  method AcceptSelectedEndpoint(selected: string, known: seq<EndpointInfo>) returns (accepted: bool)
    ensures accepted <==> selected != "" && exists i :: 0 <= i < |known| && known[i].fullUrl == selected
  {
    accepted := false;
    for i := 0 to |known|
      invariant accepted <==> selected != "" && exists j :: 0 <= j < i && known[j].fullUrl == selected
    {
      if selected == known[i].fullUrl {
        if selected != "" {
          accepted := true;
        }
      }
    }
  }

  /** Against the Open-Meteo registry, exactly the archive and air-quality
      URLs are accepted, and each matches a single record. */
  lemma OpenMeteoAcceptance(selected: string, known: seq<EndpointInfo>)
    requires IsListing(OpenMeteo, known)
    ensures (selected != "" && exists i :: 0 <= i < |known| && known[i].fullUrl == selected)
      <==> (|| selected == UrlHead + "archive" + UrlMiddle + "archive"
            || selected == UrlHead + "air-quality" + UrlMiddle + "air-quality")
    ensures forall i, j :: 0 <= i < j < |known| ==> known[i].fullUrl != known[j].fullUrl
  {
    assert IsRecordOf(OpenMeteo, "archive", known[0]);
    assert IsRecordOf(OpenMeteo, "air-quality", known[1]);
    forall i, j | 0 <= i < j < |known| ensures known[i].fullUrl != known[j].fullUrl {
      ListingUrlsDistinct(OpenMeteo, known, i, j);
    }
  }
}
