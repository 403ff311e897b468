/** The fetch-and-normalize step `retrieve_data` (app/visualization.py):
    every planned endpoint is queried, failing sources are dropped, and each
    JSON object that comes back is split into an hourly table, a daily table
    and a single metadata row. The HTTP call is an input: the outcome of
    `requests.get` for each endpoint, in endpoint order. */
module Visualization {
  import opened Wrappers
  import opened Utils

  /** One planned query (`APIEndpoint`); only its URL is read. */
  datatype EndpointQuery = EndpointQuery(url: string)

  /** What `response.json()` yields: a decoding error, JSON `null`, or an object. */
  datatype Body = Undecodable | NullJson | Object(fields: seq<Field>)

  /** What `requests.get(url)` yields: a `RequestException`, or a response. */
  datatype Outcome = RequestError(reason: string) | Response(status: int, body: Body)

  /** A time-indexed table: the empty `pd.DataFrame()`, or the frame built
      from a lifted JSON value. */
  datatype Table = EmptyTable | TableOf(source: Json)

  /** `NormalizedOpenMeteoData`: a one-row metadata record and two tables. */
  datatype Envelope = Envelope(metadata: seq<Field>, hourly: Table, daily: Table)

  const HourlyKey := "hourly"
  const DailyKey := "daily"

  /** The object without the fields whose key is in `ks`, order kept:
      `json_data.pop(key)` is `Dropping(json_data, {key})`. */
  function Dropping(fields: seq<Field>, ks: set<string>): (r: seq<Field>)
    ensures |r| <= |fields|
    ensures forall k :: k in Keys(r) <==> k in Keys(fields) && k !in ks
    ensures forall f :: f in r ==> f in fields
  {
    if fields == [] then []
    else
      assert Keys(fields) == [fields[0].key] + Keys(fields[1..]);
      var rest := Dropping(fields[1..], ks);
      if fields[0].key in ks then rest
      else
        assert Keys([fields[0]] + rest) == [fields[0].key] + Keys(rest);
        [fields[0]] + rest
  }

  /** Dropping works field by field: a field stays exactly when its key is
      not dropped. */
  lemma DroppingOne(f: Field, ks: set<string>)
    ensures Dropping([f], ks) == if f.key in ks then [] else [f]
  {
    assert [f][1..] == [];
  }

  /** Dropping distributes over concatenation, so the kept fields stay in
      their original order, each once. */
  lemma {:induction false} DroppingConcat(a: seq<Field>, b: seq<Field>, ks: set<string>)
    ensures Dropping(a + b, ks) == Dropping(a, ks) + Dropping(b, ks)
    decreases |a|
  {
    if a == [] {
      assert a + b == b;
    } else {
      assert (a + b)[0] == a[0];
      assert (a + b)[1..] == a[1..] + b;
      DroppingConcat(a[1..], b, ks);
      if a[0].key !in ks {
        assert [a[0]] + (Dropping(a[1..], ks) + Dropping(b, ks))
          == ([a[0]] + Dropping(a[1..], ks)) + Dropping(b, ks);
      }
    }
  }

  /** The table lifted out of `key`, or the empty table when the key is absent. */
  function Lift(obj: seq<Field>, key: string): (t: Table)
    ensures t.TableOf? <==> key in Keys(obj)
    ensures t.TableOf? ==> Get(obj, key) == Some(t.source)
  {
    if key in Keys(obj) then TableOf(Get(obj, key).value) else EmptyTable
  }

  /** The normalization rule: hourly and daily are lifted into their own
      tables, every other field stays, in order, in the metadata row. */
  function Normalize(obj: seq<Field>): (e: Envelope)
    ensures forall k :: k in Keys(e.metadata) <==> k in Keys(obj) && k != HourlyKey && k != DailyKey
    ensures forall f :: f in e.metadata ==> f in obj
    ensures e.metadata == Dropping(obj, {HourlyKey, DailyKey})
    ensures e.hourly.TableOf? <==> HourlyKey in Keys(obj)
    ensures e.hourly.TableOf? ==> Get(obj, HourlyKey) == Some(e.hourly.source)
    ensures e.daily.TableOf? <==> DailyKey in Keys(obj)
    ensures e.daily.TableOf? ==> Get(obj, DailyKey) == Some(e.daily.source)
  {
    Envelope(Dropping(obj, {HourlyKey, DailyKey}), Lift(obj, HourlyKey), Lift(obj, DailyKey))
  }

  /** Dropping two key sets one after the other drops their union. */
  lemma {:induction false} DroppingTwice(fields: seq<Field>, a: set<string>, b: set<string>)
    ensures Dropping(Dropping(fields, a), b) == Dropping(fields, a + b)
  {
    if fields != [] {
      DroppingTwice(fields[1..], a, b);
      if fields[0].key !in a {
        assert Dropping(fields, a) == [fields[0]] + Dropping(fields[1..], a);
        assert ([fields[0]] + Dropping(fields[1..], a))[1..] == Dropping(fields[1..], a);
      }
    }
  }

  /** Dropping keys that the object does not have changes nothing. */
  lemma {:induction false} DroppingAbsent(fields: seq<Field>, ks: set<string>)
    requires forall k :: k in ks ==> k !in Keys(fields)
    ensures Dropping(fields, ks) == fields
  {
    if fields != [] {
      assert Keys(fields) == [fields[0].key] + Keys(fields[1..]);
      DroppingAbsent(fields[1..], ks);
    }
  }

  /** Popping one key leaves the lookup of any other key as it was. */
  lemma {:induction false} GetAfterDropping(fields: seq<Field>, ks: set<string>, key: string)
    requires key !in ks
    ensures Get(Dropping(fields, ks), key) == Get(fields, key)
  {
    if fields != [] {
      GetAfterDropping(fields[1..], ks, key);
      if fields[0].key !in ks {
        assert Dropping(fields, ks) == [fields[0]] + Dropping(fields[1..], ks);
        assert ([fields[0]] + Dropping(fields[1..], ks))[1..] == Dropping(fields[1..], ks);
      }
    }
  }

  /** The keys split cleanly: every original key is either lifted or kept in
      the metadata row, and none is both. */
  lemma NormalizePartition(obj: seq<Field>)
    ensures var e := Normalize(obj);
      && (set k | k in Keys(e.metadata)) + Lifted(obj) == (set k | k in Keys(obj))
      && (set k | k in Keys(e.metadata)) !! Lifted(obj)
  {
  }

  /** The keys that go into their own table. */
  function Lifted(obj: seq<Field>): (ks: set<string>)
    ensures ks <= {HourlyKey, DailyKey}
    ensures forall k :: k in ks <==> k in Keys(obj) && (k == HourlyKey || k == DailyKey)
  {
    (if HourlyKey in Keys(obj) then {HourlyKey} else {}) + (if DailyKey in Keys(obj) then {DailyKey} else {})
  }

  /** Normalizing the metadata row again lifts nothing and keeps the row. */
  lemma NormalizeIdempotent(obj: seq<Field>)
    ensures var m := Normalize(obj).metadata;
      Normalize(m) == Envelope(m, EmptyTable, EmptyTable)
  {
    var m := Normalize(obj).metadata;
    DroppingAbsent(m, {HourlyKey, DailyKey});
  }

  /** A source whose envelope is kept: status 200 and a JSON object body. */
  predicate Usable(o: Outcome)
  {
    o.Response? && o.status == 200 && o.body.Object?
  }

  /** The JSON objects of the usable sources, in source order. */
  function Accepted(outcomes: seq<Outcome>): (bodies: seq<seq<Field>>)
    ensures |bodies| <= |outcomes|
  {
    if outcomes == [] then []
    else
      var last := outcomes[|outcomes| - 1];
      Accepted(outcomes[..|outcomes| - 1]) + (if Usable(last) then [last.body.fields] else [])
  }

  /** Accepting a concatenation accepts each part. */
  lemma {:induction false} AcceptedConcat(a: seq<Outcome>, b: seq<Outcome>)
    ensures Accepted(a + b) == Accepted(a) + Accepted(b)
    decreases |b|
  {
    if b == [] {
      assert a + b == a;
    } else {
      var b' := b[..|b| - 1];
      assert (a + b)[..|a + b| - 1] == a + b';
      assert (a + b)[|a + b| - 1] == b[|b| - 1];
      AcceptedConcat(a, b');
    }
  }

  /** A failing source never alters what the others contribute. */
  lemma FailureIsolated(before: seq<Outcome>, failed: Outcome, after: seq<Outcome>)
    requires !Usable(failed)
    ensures Accepted(before + [failed] + after) == Accepted(before + after)
  {
    AcceptedConcat(before + [failed], after);
    AcceptedConcat(before, [failed]);
    AcceptedConcat(before, after);
    assert Accepted([failed]) == [] by {
      assert [failed][..0] == [];
    }
  }

  /** No envelope at all exactly when every source fails; at least one as soon
      as one source succeeds. */
  lemma {:induction false} NothingAcceptedIffAllFail(outcomes: seq<Outcome>)
    ensures Accepted(outcomes) == [] <==> forall i :: 0 <= i < |outcomes| ==> !Usable(outcomes[i])
    decreases |outcomes|
  {
    if outcomes != [] {
      var init := outcomes[..|outcomes| - 1];
      NothingAcceptedIffAllFail(init);
      assert forall i :: 0 <= i < |init| ==> init[i] == outcomes[i];
    }
  }

  /** The positions of the usable sources, in increasing order. */
  function UsableIndices(outcomes: seq<Outcome>): (idx: seq<nat>)
    ensures |idx| == |Accepted(outcomes)|
    ensures forall k :: 0 <= k < |idx| ==> idx[k] < |outcomes|
  {
    if outcomes == [] then []
    else
      var n := |outcomes| - 1;
      UsableIndices(outcomes[..n]) + (if Usable(outcomes[n]) then [n] else [])
  }

  /** Envelope order follows endpoint order: the k-th accepted body is the
      body of the k-th usable source, and every usable source is counted. */
  lemma {:induction false} AcceptedInSourceOrder(outcomes: seq<Outcome>)
    ensures var idx := UsableIndices(outcomes);
      && (forall k :: 0 <= k < |idx| ==>
            Usable(outcomes[idx[k]]) && Accepted(outcomes)[k] == outcomes[idx[k]].body.fields)
      && (forall k, l :: 0 <= k < l < |idx| ==> idx[k] < idx[l])
      && (forall j :: 0 <= j < |outcomes| && Usable(outcomes[j]) ==> j in idx)
    decreases |outcomes|
  {
    if outcomes != [] {
      var n := |outcomes| - 1;
      var init := outcomes[..n];
      AcceptedInSourceOrder(init);
      var pre := UsableIndices(init);
      var idx := UsableIndices(outcomes);
      var acc := Accepted(outcomes);
      assert acc == Accepted(init) + (if Usable(outcomes[n]) then [outcomes[n].body.fields] else []);
      assert idx == pre + (if Usable(outcomes[n]) then [n] else []);
      forall k | 0 <= k < |idx|
        ensures Usable(outcomes[idx[k]]) && acc[k] == outcomes[idx[k]].body.fields
      {
        if k < |pre| {
          assert idx[k] == pre[k] && acc[k] == Accepted(init)[k];
          assert init[pre[k]] == outcomes[pre[k]];
        }
      }
      forall j | 0 <= j < |outcomes| && Usable(outcomes[j]) ensures j in idx {
        if j < n {
          assert init[j] == outcomes[j];
          assert j in pre;
        }
      }
    }
  }

  /** `retrieve_data`: queries every endpoint in order; a request error, a
      status other than 200, an undecodable or null body drops that source and
      the loop goes on; each kept body has `hourly` and then `daily` popped
      into their own tables and the rest becomes the metadata row. */
  method RetrieveData(endpoints: seq<EndpointQuery>, responses: seq<Outcome>)
    returns (consolidated: seq<Envelope>)
    requires |responses| == |endpoints|
    ensures |consolidated| == |Accepted(responses)|
    ensures forall k :: 0 <= k < |consolidated| ==> consolidated[k] == Normalize(Accepted(responses)[k])
  {
    consolidated := [];
    for i := 0 to |endpoints|
      invariant |consolidated| == |Accepted(responses[..i])|
      invariant forall k :: 0 <= k < |consolidated| ==> consolidated[k] == Normalize(Accepted(responses[..i])[k])
    {
      assert responses[..i + 1][..i] == responses[..i];
      var response := responses[i];
      if response.RequestError? || response.status != 200 {
        continue;
      }
      if response.body.Undecodable? || response.body.NullJson? {
        continue;
      }
      var jsonData := response.body.fields;
      ghost var obj := jsonData;
      var hourly, daily := EmptyTable, EmptyTable;
      if HourlyKey in Keys(jsonData) {
        hourly := TableOf(Get(jsonData, HourlyKey).value);
        jsonData := Dropping(jsonData, {HourlyKey});
      } else {
        DroppingAbsent(jsonData, {HourlyKey});
      }
      assert jsonData == Dropping(obj, {HourlyKey});
      GetAfterDropping(obj, {HourlyKey}, DailyKey);
      if DailyKey in Keys(jsonData) {
        daily := TableOf(Get(jsonData, DailyKey).value);
        jsonData := Dropping(jsonData, {DailyKey});
      } else {
        DroppingAbsent(jsonData, {DailyKey});
      }
      assert jsonData == Dropping(Dropping(obj, {HourlyKey}), {DailyKey});
      DroppingTwice(obj, {HourlyKey}, {DailyKey});
      assert {HourlyKey} + {DailyKey} == {HourlyKey, DailyKey};
      consolidated := consolidated + [Envelope(jsonData, hourly, daily)];
    }
    assert responses[..|endpoints|] == responses;
  }
}
