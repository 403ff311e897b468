# Gaya: the deterministic core, modelled in Dafny

Gaya turns a conversation about weather and climate into a chart and an
explanation. Most of its work is calls to language models, HTTP fetches from
Open-Meteo and `exec` of generated code. This project models the deterministic
pieces around those calls:

- `api.dfy` (module `Api`, from `app/api.py`): the Open-Meteo endpoint names
  `archive` and `air-quality`, and the URL template
  `https://{endpoint}-api.open-meteo.com/v1/{endpoint}`. The template is split
  at its placeholders, so "both placeholders get the same name" follows from
  filling it in. Also modelled: membership-checked URL construction, the
  registry that builds one `APIEndpointInfo` record per endpoint, the
  description table with its default, and the registry-wide `construct_url`.
  A raised `ValueError` becomes a `Failure` carrying the same message.
- `utils.dfy` (module `Utils`, from `app/utils.py`): a `Json` datatype and the
  recursive describer `describe_dict`. Objects are described key by key.
  Lists are summarised by a type tag, a raw sample `value[:max_sample_size]`
  and their length. Scalars are tagged with `type(x).__name__`.
- `visualization.dfy` (module `Visualization`, from `app/visualization.py`):
  `retrieve_data`. The outcome of `requests.get` for each endpoint is an input,
  in endpoint order. Failing sources are dropped. Each JSON object that comes
  back has `hourly` and `daily` popped into their own tables, and the rest
  becomes the one-row metadata record.
- `main.dfy` (module `Main`, from `app/main.py`):
  - `data_preprocessing` over a `DataFrame` class that holds its columns in
    order. The method copies the frame and drops nested columns from the copy
    in place.
  - The persona lookup and level/output-type branching of
    `set_complexity_level`. The classifier is a function parameter. The six
    guideline prompts are opaque constants.
  - The check in `main` that a URL picked by the language model matches a
    known registry record.
- `wrappers.dfy` (module `Wrappers`): `Option` and `Result`.

`retrieve_data` lifts exactly the keys `hourly` and `daily`, whatever their
values, and so does the model.

## Model

| member | source | states |
|---|---|---|
| Api.ApiType.Endpoints | app/api.py:12-16 | The Open-Meteo endpoint list contains `archive` and `air-quality` and has no repeats. |
| Api.ApiType.ConstructUrl | app/api.py:42-45 | Succeeds exactly when the endpoint is listed. The URL is `https://` + e + `-api.open-meteo.com/v1/` + e. Otherwise it fails with `Endpoint <e> not available for OPEN_METEO`. |
| Api.Format | app/api.py:45 | `str.format` of a template: the length of the result is the literal length plus one endpoint length per placeholder. |
| Api.FormatOne | app/api.py:45 | A literal piece is filled with its own text and a placeholder with the endpoint; with `FormatConcat` this fixes the filled template piece by piece, in order. |
| Api.FormatConcat | app/api.py:45 | Filling a concatenation of template parts fills each part. |
| Api.ApiType.UrlTemplate | app/api.py:17 | The Open-Meteo template starts with `https://`, ends with a placeholder and has exactly two placeholders. |
| Api.OpenMeteoUrl | app/api.py:17 | Filling both placeholders of the template with e gives `https://` + e + `-api.open-meteo.com/v1/` + e. |
| Api.UrlDeterminesEndpoint | app/api.py:17 | The filled template determines the endpoint name: equal URLs mean equal names. |
| Api.ConstructUrlInjective | app/api.py:45 | Distinct valid endpoints give distinct URLs. |
| Api.AllApiTypesComplete | app/api.py:8-18 | Iterating over the enum visits every API type. |
| Api.EndpointDescription | app/api.py:100-110 | Returns the table entry when the (type, endpoint) pair has one. Returns `No description available` exactly when it has none. |
| Api.BaseEndpointDescriptions | app/api.py:100-110 | `air-quality` is described as `Air quality measurements and forecasts`. `archive` gets the default text. |
| Api.RegistryGetEndpoints | app/api.py:73-84 | Returns one record per endpoint of the type, in the same order and of the same length. Each record has that type and endpoint, `full_url` equal to the successful `construct_url`, the looked-up description and no parameters. |
| Api.ListingUrlsDistinct | app/api.py:76-81 | The records of a registry listing have pairwise distinct full URLs. |
| Api.RegistryConstructUrl | app/api.py:137-141 | Succeeds exactly when some API type lists the endpoint. The result is the URL from the first such type in enum order. Otherwise it fails with `Endpoint <e> does not match any known API type`. |
| Utils.Get | app/visualization.py:157-161 | Key lookup finds a value exactly when the key is present, and returns the value stored under it. |
| Utils.TypeName | app/utils.py:23 | `type(x).__name__`: the name is `list` exactly for lists, `dict` exactly for dicts and `NoneType` exactly for null. |
| Utils.JoinQuoted | app/utils.py:36 | The names in single quotes: empty exactly for no names, `'T'` for one name, and starting with the first name in quotes otherwise. |
| Utils.JoinQuotedConcat | app/utils.py:36 | Two non-empty joins are separated by `, `; with the one-name case this fixes the rendering of every list of names. |
| Utils.ReprStrings | app/utils.py:36 | `str(list_types)` in the f-string: bracketed, `[]` exactly for no names, `['T']` for one name. |
| Utils.ReprStringsConcat | app/utils.py:36 | A list of two or more names renders as the quoted names separated by `, ` inside one pair of brackets. |
| Utils.PyPrefix | app/utils.py:26 | Python slicing `s[:m]` gives a prefix of s. For m >= 0 its length is min(m, len(s)). For negative m its length is max(0, len(s)+m). |
| Utils.DistinctTypeNames | app/utils.py:23 | The list lists each type name occurring in the input exactly once, and nothing else. No order is promised. |
| Utils.SingleTypeNameShared | app/utils.py:23-28 | A single listed type name means every element has the first element's type name. |
| Utils.UniformTypeNames | app/utils.py:23-30 | When all elements share one type name, the list of names is exactly that one name. |
| Utils.DescribeList | app/utils.py:18-39 | A non-empty list yields keys `type`, `sample`, `total_length`. The sample is the raw prefix `value[:max_sample_size]` and `total_length` is the length. A uniform list is tagged `list of <T>`. Otherwise the tag is `list with mixed types: ` followed by a listing of each of the at least two type names once. |
| Utils.Describe | app/utils.py:12-46 | A dict keeps its keys, in order (each value is described in turn, as `DescribeIsDescription` states). An empty list becomes `list (empty)`. A non-empty list is its summary (type tag, sample and total length, as `DescribeList` states). A scalar becomes `{type: <name>, sample: value}` with the value unchanged. |
| Utils.DescribeDict | app/utils.py:1-49 | The result is a description of the input at every level (`DescribedAs`): the same keys in the same order, each value described key by key as a dict, `list (empty)` for an empty list, a summary for a non-empty list (type tag, raw sample, length; the names of a mixed list each once, in any order) and `{type, sample}` for a scalar. The default sample size is 3. |
| Utils.DescribeIsDescription | app/utils.py:12-46 | `describe` meets the description shape at every nesting level. |
| Visualization.Dropping | app/visualization.py:156-161 | `dict.pop` of the given keys: the result has exactly the other keys, holds only original fields and is no longer than the input. |
| Visualization.DroppingOne | app/visualization.py:156-161 | A single field is kept exactly when its key is not popped. |
| Visualization.DroppingConcat | app/visualization.py:156-166 | Popping distributes over concatenation, so the kept fields stay in their original order, each once. |
| Visualization.Lift | app/visualization.py:156-161 | A table is built exactly when the key is present, from the value stored under it. Otherwise the table is empty. |
| Visualization.Normalize | app/visualization.py:152-166 | Metadata keys are the original keys minus `hourly` and `daily`, with original fields only. The metadata is the object with `hourly` and `daily` popped, so its fields keep their order. The hourly table is built from the value stored under `hourly` exactly when that key is present, and is the empty frame otherwise; likewise for daily. |
| Visualization.DroppingTwice | app/visualization.py:157-161 | Popping `hourly` and then `daily` equals removing both at once. |
| Visualization.DroppingAbsent | app/visualization.py:156-161 | Removing a key that is absent changes nothing. |
| Visualization.GetAfterDropping | app/visualization.py:157-160 | Popping `hourly` does not change what `daily` looks up. |
| Visualization.Lifted | app/visualization.py:156-161 | The lifted keys are exactly those of `hourly` and `daily` that are present. |
| Visualization.NormalizePartition | app/visualization.py:156-166 | Metadata keys together with lifted keys are the original key set, and no key is in both. |
| Visualization.NormalizeIdempotent | app/visualization.py:156-166 | Normalizing the metadata again yields empty hourly and daily tables and the same metadata. |
| Visualization.Accepted | app/visualization.py:141-175 | There are at most as many accepted bodies as sources. |
| Visualization.AcceptedConcat | app/visualization.py:141 | Sources are handled independently: accepting a concatenation concatenates the accepted bodies. |
| Visualization.FailureIsolated | app/visualization.py:177-185 | Inserting a failing source anywhere leaves the accepted bodies of the others as they were. |
| Visualization.NothingAcceptedIffAllFail | app/visualization.py:177-187 | The result is empty exactly when every source fails. |
| Visualization.UsableIndices | app/visualization.py:141-175 | One valid source position per accepted body. |
| Visualization.AcceptedInSourceOrder | app/visualization.py:139-175 | The k-th accepted body is the body of the k-th usable source. Positions strictly increase, and no usable source is missed. |
| Visualization.RetrieveData | app/visualization.py:129-187 | Returns one envelope per usable source, in order, each the normalization of that source's object. A request error, a non-200 status, or an undecodable or null body drops the source and the loop continues. |
| Main.IsNested | app/main.py:108-111 | A column is nested exactly when it has a first cell whose type name is `list` or `dict`; no other cell is read. |
| Main.WithoutColumn | app/main.py:114 | `drop(columns=[name])` never lengthens the columns and leaves them as they are when the name is absent. |
| Main.FindColumn | app/main.py:109-110 | A column is found exactly when its name is present. |
| Main.WithoutColumnMembers | app/main.py:114 | Dropping a name keeps exactly the columns with another name. |
| Main.DataFrame.Copy | app/main.py:104 | A fresh frame with the same columns. |
| Main.DataFrame.Cells | app/main.py:109-110 | `df[name]` exists exactly when the frame has the column. |
| Main.DataFrame.Drop | app/main.py:114 | A present name is removed in place. An absent name fails and leaves the frame unchanged. |
| Main.FlatColumnsMembers | app/main.py:107-114 | The remaining columns are exactly the original columns that are not nested. |
| Main.NestedColumnsEntries | app/main.py:108-113 | With distinct names, a column's name is a nested key exactly when its first cell is a list or dict, and then it maps to that column's cells. No other key appears. |
| Main.FlatColumnsInOrder | app/main.py:104-114 | The remaining columns keep their original relative order and values. |
| Main.PreprocessPartition | app/main.py:107-114 | Every original column ends up in exactly one place: the remaining columns or the nested keys. Nothing else appears in either. |
| Main.PreprocessIdempotent | app/main.py:107-114 | Preprocessing the remaining columns again moves nothing and keeps them. |
| Main.FindColumnPast | app/main.py:109 | A lookup skips a prefix that lacks the name. |
| Main.WithoutAbsentColumn | app/main.py:114 | Dropping an absent name keeps the columns. |
| Main.WithoutColumnConcat | app/main.py:114 | Dropping a name distributes over concatenation. |
| Main.OtherNamesDiffer | app/main.py:107-114 | With distinct names, no remaining earlier column and no later column carries the current column's name. |
| Main.DropUnique | app/main.py:109-114 | A uniquely named column is found under its name. Dropping that name removes exactly that column. |
| Main.PreprocessStep | app/main.py:107-114 | At step i the column is found under its name, and dropping it leaves the other columns in place. |
| Main.PreprocessExtend | app/main.py:108-114 | Step i adds the column to the nested map or keeps it among the remaining columns. |
| Main.DataPreprocessing | app/main.py:94-116 | Leaves the input frame unchanged and returns a fresh frame. The frame holds the non-nested columns in order, and the map holds each nested column's cells under its name. |
| Main.FindTuning | app/main.py:166 | Returns the tuning of the first persona with the name, and None exactly when no persona has it. |
| Main.SelectGuideline | app/main.py:173-180 | Defined exactly for levels 0..2. The prompt has that level, and it is the visualization prompt for `VISUALIZATION` and the explanation prompt otherwise. |
| Main.SelectGuidelineRoundTrip | app/main.py:173-178 | Each of the six prompts is selected by its own level and output type. |
| Main.SetComplexityLevel | app/main.py:152-184 | Returns a prompt exactly when the persona is found, its tuning is non-empty, the classifier answers and the level is 0..2. The prompt matches that level and the output type. Every failure yields None. |
| Main.AcceptSelectedEndpoint | app/main.py:239-243 | The selected URL is acted on exactly when it is non-empty and equals some record's full URL. |
| Main.OpenMeteoAcceptance | app/main.py:239-242 | Against the Open-Meteo listing, only the archive and air-quality URLs are accepted. The listing's full URLs are pairwise distinct. |

## Left out

- LLM calls (`classify_text`, `build_api_query`, `generate_visualization`, `describe_visualization`, app/ai.py) are not modelled. In `set_complexity_level` the classifier is a function parameter that may fail.
- `exec` of generated code, `process_raw_data`/`visualize` and the pipeline orchestrator run code that exists only at runtime, so they are left out. The `handle_exceptions` decorator is not part of this model.
- Network and files are not modelled. `requests.get` is an input outcome per endpoint, aligned with the endpoint list. Reading `personas.json`, `apis.json` and `mock.json` is not modelled: personas are an input sequence. `random.choice` and the per-message loop in `main` are left out.
- `_get_endpoint_parameters` reads `apis.json`. It is not modelled, and records carry no parameters, as the registry builds them.
- pandas and plotly construction is not modelled. Tables are abstract: a lifted JSON value or the empty table, a one-row field list for metadata, and raw cell lists for nested frames. A pandas construction error would send a source to the catch-all handler. The model assumes construction succeeds.
- Visualization.RetrieveData: only JSON objects, `null` and undecodable bodies are modelled. A bare JSON list or number as a body is not.
- Popping a key removes every field with that key. Python dict keys are unique, so this coincides with `dict.pop`.
- Main.DataPreprocessing: requires distinct column names. With duplicate names, pandas `df[name]` returns a frame rather than a column.
- Utils.DistinctTypeNames: lists names in last-occurrence order, an order fixed by the recursion. Its contract, and the description shape `DescribedAs` that `DescribeDict` promises, admit only what Python guarantees for a set: each name once, in any order. `Utils.Describe` names `DescribeList` for a non-empty list, so its contract does fix that order.
- The prompt texts of app/prompts.py are opaque constants.
- Logging and `print` are not modelled.
