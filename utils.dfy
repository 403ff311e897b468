/** JSON-like values and the recursive structure describer `describe_dict`
    (app/utils.py). */
module Utils {
  import opened Wrappers

  /** A decoded JSON value. Objects keep their fields in insertion order, as a
      Python dict does. */
  datatype Json =
    | JNull
    | JBool(b: bool)
    | JInt(i: int)
    | JFloat(f: real)
    | JStr(s: string)
    | JList(items: seq<Json>)
    | JObject(fields: seq<Field>)

  datatype Field = Field(key: string, value: Json)

  /** The keys of an object, in order. */
  function Keys(fields: seq<Field>): seq<string>
  {
    seq(|fields|, i requires 0 <= i < |fields| => fields[i].key)
  }

  /** `d[key]` for the first field with that key. */
  function Get(fields: seq<Field>, key: string): (r: Option<Json>)
    ensures r.Some? <==> key in Keys(fields)
    ensures r.Some? ==> exists i :: 0 <= i < |fields| && fields[i] == Field(key, r.value)
  {
    if fields == [] then None
    else
      assert Keys(fields) == [fields[0].key] + Keys(fields[1..]);
      if fields[0].key == key then Some(fields[0].value)
      else
        var r := Get(fields[1..], key);
        assert r.Some? ==> exists i :: 0 <= i < |fields[1..]| && fields[1..][i] == Field(key, r.value);
        r
  }

  /** `type(x).__name__` of the Python value a JSON value decodes to. */
  function TypeName(v: Json): (r: string)
    ensures r == "list" <==> v.JList?
    ensures r == "dict" <==> v.JObject?
    ensures r == "NoneType" <==> v.JNull?
  {
    match v
    case JNull => "NoneType"
    case JBool(_) => "bool"
    case JInt(_) => "int"
    case JFloat(_) => "float"
    case JStr(_) => "str"
    case JList(_) => "list"
    case JObject(_) => "dict"
  }

  predicate IsScalar(v: Json)
  {
    !v.JList? && !v.JObject?
  }

  function Min(a: int, b: int): int { if a < b then a else b }
  function Max(a: int, b: int): int { if a < b then b else a }

  /** Python's `s[:m]`: a negative `m` counts from the end. */
  function PyPrefix<T>(s: seq<T>, m: int): (r: seq<T>)
    ensures |r| <= |s| && r == s[..|r|]
    ensures 0 <= m ==> |r| == Min(m, |s|)
    ensures m < 0 ==> |r| == Max(0, |s| + m)
  {
    if 0 <= m then (if m < |s| then s[..m] else s)
    else if 0 < |s| + m then s[..|s| + m]
    else []
  }

  /** The type names occurring in `items`, as a set. */
  ghost function TypeNameSet(items: seq<Json>): set<string>
  {
    set i | 0 <= i < |items| :: TypeName(items[i])
  }

  /** `names` lists every element of `names'`s set once: a `list(set(...))`. */
  ghost predicate EnumeratesOnce(names: seq<string>, s: set<string>)
  {
    && (forall n :: n in names <==> n in s)
    && (forall i, j :: 0 <= i < j < |names| ==> names[i] != names[j])
  }

  /** `list(set(type(item).__name__ for item in value))`; Python leaves the
      order of the set unspecified, and only `EnumeratesOnce` is promised. */
  function DistinctTypeNames(items: seq<Json>): (names: seq<string>)
    ensures EnumeratesOnce(names, TypeNameSet(items))
  {
    if items == [] then []
    else
      var rest := DistinctTypeNames(items[1..]);
      assert TypeNameSet(items) == {TypeName(items[0])} + TypeNameSet(items[1..]) by {
        forall n | n in TypeNameSet(items) ensures n in {TypeName(items[0])} + TypeNameSet(items[1..]) {
          var i :| 0 <= i < |items| && TypeName(items[i]) == n;
          if i > 0 { assert items[1..][i - 1] == items[i]; }
        }
        forall n | n in TypeNameSet(items[1..]) ensures n in TypeNameSet(items) {
          var i :| 0 <= i < |items[1..]| && TypeName(items[1..][i]) == n;
          assert items[i + 1] == items[1..][i];
        }
      }
      if TypeName(items[0]) in rest then rest else [TypeName(items[0])] + rest
  }

  /** Every element has the type name of the first. */
  predicate AllSameType(items: seq<Json>)
    requires items != []
  {
    forall i :: 0 <= i < |items| ==> TypeName(items[i]) == TypeName(items[0])
  }

  /** A list of one type name lists every element's type name. */
  lemma SingleTypeNameShared(items: seq<Json>, names: seq<string>)
    requires items != []
    requires EnumeratesOnce(names, TypeNameSet(items))
    requires |names| == 1
    ensures AllSameType(items)
  {
    var n0 := TypeName(items[0]);
    assert n0 in TypeNameSet(items);
    forall i | 0 <= i < |items| ensures TypeName(items[i]) == n0 {
      assert TypeName(items[i]) in TypeNameSet(items);
      assert TypeName(items[i]) in names;
    }
  }

  /** When every element has the same type name, that name is the only one listed. */
  lemma {:induction false} UniformTypeNames(items: seq<Json>)
    requires items != [] && AllSameType(items)
    ensures DistinctTypeNames(items) == [TypeName(items[0])]
  {
    if |items| > 1 {
      assert items[1..][0] == items[1];
      assert AllSameType(items[1..]) by {
        forall i | 0 <= i < |items[1..]| ensures TypeName(items[1..][i]) == TypeName(items[1..][0]) {
          assert items[1..][i] == items[i + 1];
        }
      }
      UniformTypeNames(items[1..]);
    }
  }

  /** Python's `str` of a list of strings: `['a', 'b']`. */
  function ReprStrings(names: seq<string>): (r: string)
    ensures |r| >= 2 && r[0] == '[' && r[|r| - 1] == ']'
    ensures r == "[]" <==> names == []
    ensures |names| == 1 ==> r == "['" + names[0] + "']"
  {
    "[" + JoinQuoted(names) + "]"
  }

  /** The names, each in single quotes, separated by `, `. */
  function JoinQuoted(names: seq<string>): (r: string)
    ensures r == "" <==> names == []
    ensures names != [] ==> r[0] == '\'' && r[|r| - 1] == '\''
    ensures names != [] ==> |r| >= |names[0]| + 2 && r[..|names[0]| + 2] == "'" + names[0] + "'"
    ensures |names| == 1 ==> r == "'" + names[0] + "'"
  {
    if names == [] then ""
    else if |names| == 1 then "'" + names[0] + "'"
    else "'" + names[0] + "', " + JoinQuoted(names[1..])
  }

  /** Joining two non-empty lists of names puts `, ` between the two joins;
      with the one-name case this fixes the whole rendering. */
  lemma {:induction false} JoinQuotedConcat(a: seq<string>, b: seq<string>)
    requires a != [] && b != []
    ensures JoinQuoted(a + b) == JoinQuoted(a) + ", " + JoinQuoted(b)
    decreases |a|
  {
    var ab := a + b;
    assert ab[0] == a[0] && |ab| > 1;
    var q := "'" + a[0];
    if |a| == 1 {
      assert ab[1..] == b;
      calc {
        JoinQuoted(ab);
        q + "', " + JoinQuoted(b);
        { assert "', " == "'" + ", "; }
        (q + "'") + ", " + JoinQuoted(b);
        JoinQuoted(a) + ", " + JoinQuoted(b);
      }
    } else {
      assert ab[1..] == a[1..] + b;
      calc {
        JoinQuoted(ab);
        q + "', " + JoinQuoted(a[1..] + b);
        { JoinQuotedConcat(a[1..], b); }
        q + "', " + (JoinQuoted(a[1..]) + ", " + JoinQuoted(b));
        (q + "', " + JoinQuoted(a[1..])) + ", " + JoinQuoted(b);
        JoinQuoted(a) + ", " + JoinQuoted(b);
      }
    }
  }

  /** The rendering of a list of names split anywhere: the two joins inside
      one pair of brackets. */
  lemma ReprStringsConcat(a: seq<string>, b: seq<string>)
    requires a != [] && b != []
    ensures ReprStrings(a + b) == "[" + JoinQuoted(a) + ", " + JoinQuoted(b) + "]"
  {
    JoinQuotedConcat(a, b);
  }

  const EmptyListText := "list (empty)"
  const UniformListPrefix := "list of "
  const MixedListPrefix := "list with mixed types: "
  const DefaultMaxSampleSize := 3

  /** The description of a non-empty list: its type tag, the raw (not
      described) prefix of at most `maxSampleSize` elements, and its length. */
  function DescribeList(items: seq<Json>, maxSampleSize: int): (r: Json)
    requires items != []
    ensures r.JObject? && Keys(r.fields) == ["type", "sample", "total_length"]
    ensures r.fields[1].value == JList(PyPrefix(items, maxSampleSize))
    ensures r.fields[2].value == JInt(|items|)
    ensures AllSameType(items) ==> r.fields[0].value == JStr(UniformListPrefix + TypeName(items[0]))
    ensures !AllSameType(items) ==>
      exists names :: EnumeratesOnce(names, TypeNameSet(items))
        && |names| > 1
        && r.fields[0].value == JStr(MixedListPrefix + ReprStrings(names))
  {
    var listTypes := DistinctTypeNames(items);
    var sample := PyPrefix(items, maxSampleSize);
    var tag :=
      if |listTypes| == 1 then
        SingleTypeNameShared(items, listTypes);
        UniformTypeNames(items);
        UniformListPrefix + listTypes[0]
      else
        assert !AllSameType(items) by {
          if AllSameType(items) { UniformTypeNames(items); }
        }
        assert TypeName(items[0]) in TypeNameSet(items);
        MixedListPrefix + ReprStrings(listTypes);
    JObject([Field("type", JStr(tag)), Field("sample", JList(sample)), Field("total_length", JInt(|items|))])
  }

  /** The inner `describe`: objects are described key by key, lists are
      summarised, scalars are tagged with their type and kept as they are. */
  function Describe(v: Json, maxSampleSize: int): (r: Json)
    decreases v
    ensures v.JObject? ==> r.JObject? && Keys(r.fields) == Keys(v.fields)
    ensures v == JList([]) ==> r == JStr(EmptyListText)
    ensures v.JList? && v.items != [] ==>
      && r == DescribeList(v.items, maxSampleSize)
      && Get(r.fields, "sample") == Some(JList(PyPrefix(v.items, maxSampleSize)))
      && Get(r.fields, "total_length") == Some(JInt(|v.items|))
    ensures IsScalar(v) ==>
      && r.JObject?
      && Keys(r.fields) == ["type", "sample"]
      && Get(r.fields, "type") == Some(JStr(TypeName(v)))
      && Get(r.fields, "sample") == Some(v)
  {
    match v
    case JObject(fields) =>
      JObject(seq(|fields|, i requires 0 <= i < |fields| =>
        Field(fields[i].key, Describe(fields[i].value, maxSampleSize))))
    case JList(items) =>
      if items == [] then JStr(EmptyListText) else DescribeList(items, maxSampleSize)
    case _ =>
      JObject([Field("type", JStr(TypeName(v))), Field("sample", v)])
  }

  /** `d` summarises the non-empty list `items`: type tag, raw sample of at
      most `maxSampleSize` elements, and length. A mixed list may list its
      type names in any order, as Python's set does. */
  ghost predicate ListSummary(items: seq<Json>, d: Json, maxSampleSize: int)
    requires items != []
  {
    && d.JObject? && Keys(d.fields) == ["type", "sample", "total_length"]
    && d.fields[1].value == JList(PyPrefix(items, maxSampleSize))
    && d.fields[2].value == JInt(|items|)
    && (AllSameType(items) ==> d.fields[0].value == JStr(UniformListPrefix + TypeName(items[0])))
    && (!AllSameType(items) ==>
          exists names :: EnumeratesOnce(names, TypeNameSet(items))
            && |names| > 1
            && d.fields[0].value == JStr(MixedListPrefix + ReprStrings(names)))
  }

  /** `d` is a description of `v` at every level: an object keeps its keys,
      in order, over descriptions of its values; an empty list is the text
      `list (empty)`; a non-empty list is its summary; a scalar is its type
      name beside the unchanged value. */
  ghost predicate DescribedAs(v: Json, d: Json, maxSampleSize: int)
    decreases v
  {
    match v
    case JObject(fs) =>
      && d.JObject?
      && |d.fields| == |fs|
      && forall i :: 0 <= i < |fs| ==>
        d.fields[i].key == fs[i].key && DescribedAs(fs[i].value, d.fields[i].value, maxSampleSize)
    case JList(items) =>
      if items == [] then d == JStr(EmptyListText) else ListSummary(items, d, maxSampleSize)
    case _ =>
      d == JObject([Field("type", JStr(TypeName(v))), Field("sample", v)])
  }

  /** `describe` meets the description shape at every nesting level. */
  lemma {:induction false} DescribeIsDescription(v: Json, maxSampleSize: int)
    ensures DescribedAs(v, Describe(v, maxSampleSize), maxSampleSize)
    decreases v
  {
    match v
    case JObject(fs) =>
      var d := Describe(v, maxSampleSize);
      forall i | 0 <= i < |fs|
        ensures DescribedAs(fs[i].value, d.fields[i].value, maxSampleSize)
      {
        DescribeIsDescription(fs[i].value, maxSampleSize);
      }
    case _ =>
  }

  /** `describe_dict`: the description of every top-level value, under the
      same keys; nested objects keep their keys too. */
  function DescribeDict(d: seq<Field>, maxSampleSize: int := DefaultMaxSampleSize): (r: seq<Field>)
    ensures DescribedAs(JObject(d), JObject(r), maxSampleSize)
  {
    var r := seq(|d|, i requires 0 <= i < |d| => Field(d[i].key, Describe(d[i].value, maxSampleSize)));
    assert JObject(r) == Describe(JObject(d), maxSampleSize);
    DescribeIsDescription(JObject(d), maxSampleSize);
    r
  }
}
