# Balloon constellation tracker: the normalise-and-enrich pipeline

This project models the data pipeline of a small dashboard that tracks a fleet of balloons. On each run the tracker:

1. downloads the positional snapshot of each of the last `hours` hour offsets from `BASE_URL` (`00.json`, `01.json`, …);
2. sorts each snapshot, whose JSON shape is undocumented, into record candidates. `None` and unexpected shapes give nothing, a list is a list of candidates, and a dict contributes the elements of its list-valued entries in key order;
3. reads each candidate positionally as `[lat, lon, alt, …]`;
4. geocodes the point `Point(lon, lat)` against the country and state boundary collections. Each tier takes the first polygon in collection order that contains the point, or `None`;
5. concatenates the records of all hours, in hour order.

Modules, one per component of the pipeline:

- `Wrappers` (`wrappers.dfy`): `Option` and `Result`.
- `JsonValue` (`json.dfy`): the decoded JSON value. An object is an ordered sequence of (key, value) pairs, because a Python dict iterates in insertion order.
- `Geocoder` (`geocoder.dfy`): points, the boundary collections, the point constructor's coordinate conversion, and the first-match region lookup. Polygons are a type parameter `G`. The geometry engine's containment test is a function value kept with the collections, so nothing is claimed about geometry.
- `FlightRecords` (`records.dfy`): positional extraction of one record, both as written and as evidently intended (see Findings). Also the `Batch` of records collected so far, or the error that ended the collection.
- `SnapshotParser` (`snapshot.dfy`): the specification functions of `parse_snapshot`, its lemmas, and the imperative `ParseSnapshot` method with its loops.
- `SnapshotFetcher` (`fetcher.dfy`): the URL template with its zero-padded `{:02d}` field, and `fetch_snapshot` over an abstract `download` function.
- `HistoryAggregator` (`history.dfy`): the window's specification function, its lemmas, and the imperative `CollectFlightHistory` method.

Exceptions are modelled as `Failure` results:

- the `IndexError` from reading a short candidate;
- the `TypeError` or `KeyError` from indexing something that is not a list;
- the error raised by `Point(...)` when a coordinate cannot be converted.

`parse_snapshot` and `collect_flight_history` catch none of these, so the first one ends the whole parse and the whole collection. The model propagates it the same way.

Three behaviours of the code that the model keeps, or handles, explicitly:

- A candidate with fewer than three elements raises `IndexError` at `main.py:74-76`, and so does the model.
- `range(hours)` at `main.py:102` is empty for a negative `hours`, and the model maps a negative `hours` to an empty window.
- The comment `# can't use without position` at `main.py:87` shows the intent to drop a candidate whose latitude or longitude is `None`. But `Point(lon, lat)` at `main.py:78` raises on such a candidate before that check is reached (see Findings). The model states this behaviour as written, in `FlightRecords.ParseFlightRecordAsWritten`. The record extraction that the rest of the model builds on, `FlightRecords.ParseFlightRecord`, is the intended reading, which drops the candidate. On every other candidate the two readings agree.

## Model

| member | source | states |
|---|---|---|
| `Geocoder.Coordinate` | main.py:78 | `None` cannot be converted into a point coordinate; a JSON number converts to itself |
| `Geocoder.MakePoint` | main.py:78 | the point is built longitude first (`x` is the longitude, `y` the latitude); it exists exactly when both coordinates convert; a `None` coordinate never yields a point |
| `Geocoder.Matching` | main.py:80-81 | the filtered rows are rows of the collection, no more of them than the collection has, and each one contains the point |
| `Geocoder.MatchingComplete` | main.py:80-81 | every row whose polygon contains the point is kept by the filter |
| `Geocoder.MatchingAppend` | main.py:80-81 | the filter keeps row order: the matches of two runs of rows are the first run's matches followed by the second's |
| `Geocoder.RegionNameIsFirstMatch` | main.py:80-84 | a tier's name is `None` exactly when no polygon contains the point, and otherwise is the name of the first row, in collection order, that contains it |
| `Geocoder.FirstMatchExists` | main.py:83-84 | when some polygon contains the point there is a first one, at or before it |
| `Geocoder.UniqueContainingRegion` | main.py:80-84 | a point inside exactly one polygon of a tier gets that polygon's name |
| `Geocoder.Locate` | main.py:78-84 | country and state are each resolved on their own collection: `None` exactly when no polygon contains the point, otherwise the first match's name |
| `FlightRecords.Slots` | main.py:74-76 | a candidate yields `obj[0]`, `obj[1]` and `obj[2]` exactly when it is a list of at least three elements; a shorter list raises at its first missing index; a non-list raises |
| `FlightRecords.ParseFlightRecord` | main.py:74-95 | the intended reading (see Findings). It states the error cases exactly, with the error each raises. The candidate is dropped exactly when its latitude or longitude is `None`. A kept record has a position; its `lat`, `lon` and `alt` are `obj[0]`, `obj[1]` and `obj[2]` unchanged (`alt` may be `None`); its country and state are those of `Point(lon, lat)` |
| `FlightRecords.AsWrittenNeverDrops` | main.py:78-87 | as written, the `None` check never drops a candidate: the point constructor raises first |
| `FlightRecords.AsWrittenAgreesWithIntended` | main.py:74-95 | the as-written and intended readings agree on every candidate except one with a `None` latitude or longitude |
| `FlightRecords.NullLatitudeCounterexample` | main.py:74-87 | `[null, 5.0, 300]` raises as written and is dropped as intended |
| `SnapshotParser.CandidateRecords` | main.py:47-50 | a successful run over candidates has at most one record per candidate, and each record has a latitude and a longitude |
| `SnapshotParser.EntryRecords` | main.py:56-61 | a successful walk over a dict has at most as many records as its list-valued entries have elements, each with a position |
| `SnapshotParser.SnapshotRecords` | main.py:40-65 | for any snapshot, success gives no more records than candidates examined, each with a position |
| `SnapshotParser.CandidateRecordsAppend` | main.py:47-50 | reading two runs of candidates one after the other gives the first run's records followed by the second's, or the first error |
| `SnapshotParser.CandidateRecordsSucceed` | main.py:47-50 | a list parses exactly when no candidate in it raises |
| `SnapshotParser.CandidateRecordsFirstError` | main.py:47-50 | a failed parse reports the error of the first candidate that raises, and every earlier candidate reads without error |
| `SnapshotParser.CandidateRecordsKeepOrder` | main.py:47-50 | the records are exactly the kept candidates' records in candidate order: a strictly increasing index per record, and every candidate not indexed was dropped |
| `SnapshotParser.EntryRecordsAreNestedCandidates` | main.py:54-62 | a dict's records are those of the elements of its list-valued entries, concatenated in key order and read as one list |
| `SnapshotParser.EntryRecordsIgnoreScalars` | main.py:57 | removing every entry whose value is not a list leaves a dict's records unchanged |
| `SnapshotParser.SnapshotRecordsOfCandidates` | main.py:40-65 | every snapshot reduces to its candidates read in order; `None` and every shape other than a list or a dict give no records |
| `SnapshotParser.AppendCandidates` | main.py:47-50 | the loop over one list appends the records of its candidates to the results so far, or stops with the first error |
| `SnapshotParser.ParseSnapshot` | main.py:34-65 | the imperative parse, including the nested loop over the dict's list values, computes exactly the records or error that `SnapshotRecords` defines |
| `SnapshotParser.ListScenario` | main.py:46-51 | under the intended record reading, `[[10.0, 20.0, 1500], [null, 5.0, 300]]` gives the single record `(10.0, 20.0, 1500)`; as written, the second element raises |
| `SnapshotParser.DictScenario` | main.py:54-62 | `{"flights": [[1.0, 1.0, 100]], "meta": "ignore"}` gives the single record `(1.0, 1.0, 100)`; "meta" contributes nothing |
| `SnapshotFetcher.Decimal` | main.py:24 | the numeral is one or more decimal digits, has no leading zero unless the number is 0, and is one digit exactly below 10 |
| `SnapshotFetcher.DecimalRoundTrip` | main.py:24 | the numeral denotes the number it was made from |
| `SnapshotFetcher.OffsetFieldFormat` | main.py:20-24 | the `{:02d}` field has at least two digits, exactly two below 100, is `0` followed by the digit below 10 and the plain numeral from 10 on, and denotes the offset |
| `SnapshotFetcher.SnapshotUrlParts` | main.py:20-24 | the URL is the template's prefix, then the offset field, then `.json`, and the offset can be read back from it |
| `SnapshotFetcher.SnapshotUrlInjective` | main.py:24 | distinct offsets are fetched from distinct URLs |
| `SnapshotFetcher.SnapshotUrlExamples` | main.py:20-24 | offsets 0, 5, 12 and 23 give `00.json`, `05.json`, `12.json` and `23.json` |
| `SnapshotFetcher.FetchSnapshot` | main.py:22-31 | a failed download becomes `None`; otherwise the snapshot is the decoded body of the offset's URL |
| `HistoryAggregator.HistoryRecords` | main.py:100-108 | every record of a successful window has a latitude and a longitude |
| `HistoryAggregator.HistoryIsCandidateStream` | main.py:102-106 | the window's records are those of all its snapshots' candidates read as one list in offset order |
| `HistoryAggregator.HistoryBounded` | main.py:102-106 | a successful window has no more records than candidates examined |
| `HistoryAggregator.FailedFetchContributesNothing` | main.py:103-106 | an offset whose download fails adds no records to the window |
| `HistoryAggregator.HistoryDependsOnlyOnWindow` | main.py:102-103 | the window depends on nothing but the downloads of the URLs of offsets `0 .. n - 1` |
| `HistoryAggregator.HistoryPrefix` | main.py:106 | the records of a shorter window come first, unchanged, in a longer one: hour `h` precedes hour `h + 1` |
| `HistoryAggregator.HistoryFailureStays` | main.py:102-106 | once an offset raises, every longer window ends with the same error |
| `HistoryAggregator.CollectFlightHistory` | main.py:98-108 | the loop computes exactly the window's records or error. It fetches the offsets `0, 1, …` in ascending order, each once: all `max(hours, 0)` of them on success, or up to and including the offset whose snapshot raised |
| `HistoryAggregator.EmptyWindow` | main.py:102 | `hours <= 0` gives no records |

## Left out

- FlightRecords.ParseFlightRecord: models the intended reading, not the code as written, and so do the members built on it: `SnapshotParser.CandidateRecords`, `SnapshotParser.SnapshotRecords`, `SnapshotParser.ParseSnapshot`, `SnapshotParser.ListScenario`, `HistoryAggregator.HistoryRecords` and `HistoryAggregator.CollectFlightHistory`. These drop a candidate whose latitude or longitude is `None`. As written, `Point(lon, lat)` at `main.py:78` raises on it, which ends the parse and the whole collection. `FlightRecords.ParseFlightRecordAsWritten` models that behaviour.
- `fetch_snapshot`'s transport (`requests.get` with its timeout, `raise_for_status`, `resp.json()` and the catch-all `except`, `main.py:25-31`) is the `download` parameter. `download` returns `None` where any of these fail and the decoded body otherwise.
- Loading the shapefiles and caching them (`main.py:12-18`) is file I/O through geopandas. The two collections are given as immutable sequences.
- The geometry of shapely's `contains` is floating-point computational geometry in a foreign library. It is a function parameter, and nothing is claimed about points on an edge.
- The Streamlit page, the Plotly map, the DataFrame table, the per-country `value_counts` chart and the refresh button (`main.py:110-144`) are presentation only.
- The `print` diagnostics (`main.py:30`, `main.py:64`, `main.py:105`) have no effect on the results.
- Python indexes a string candidate by characters. The model reads only list candidates: every non-list candidate is `NotPositional`, which is right for `None`, numbers, booleans and dicts (`TypeError`/`KeyError`) but not for strings.
- `TypeError` and `KeyError` are not told apart; both are `NotPositional`.
- Geocoder.Coordinate: Python's `float()` would convert a numeric string such as `"1.5"`. The model treats every string coordinate as not convertible.
- Floating-point values, NaN and infinities are not modelled: JSON numbers are exact reals, and integers and floats are not told apart.
- A JSON object is taken to have distinct keys. The decoder's handling of a repeated key is not modelled.
- `FetchSnapshot` takes a non-negative offset. `{:02d}` applied to a negative number is not modelled, because `collect_flight_history` never passes one.
- The default `hours=24` is a Python default argument. `CollectFlightHistory` takes `hours` explicitly.

## Findings

| source | as written | input that shows it | evidently intended | confidence | as-written member | corrected member |
|---|---|---|---|---|---|---|
| main.py:78-87 | `Point(lon, lat)` is built before `lat is None or lon is None` is tested. The constructor converts each coordinate with `float()`, so a `None` coordinate raises and the drop branch is unreachable. The exception escapes `parse_snapshot` and `collect_flight_history`, and the whole history is lost. | the candidate `[null, 5.0, 300]`, e.g. in the snapshot `[[10.0, 20.0, 1500], [null, 5.0, 300]]` | test latitude and longitude for `None` first and drop the candidate ("can't use without position") | not executed; rests on shapely's `Point` converting its arguments with `float()` | `FlightRecords.ParseFlightRecordAsWritten`, shown by `FlightRecords.NullLatitudeCounterexample` and `FlightRecords.AsWrittenNeverDrops` | `FlightRecords.ParseFlightRecord`, used by the rest of the model |
