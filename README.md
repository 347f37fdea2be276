# Tide-station data pipeline, modelled in Dafny

The pipeline has two scripts. The fetcher downloads the NOAA tide-prediction
station list and chooses the stations to process: all of them, the five test
stations, or a custom id list. For each station it fetches the harmonic
constituents, with bounded retries and exponential backoff. It tags the
station "harmonic" or "subordinate". It attaches the datum offset Z0 = MSL − MLLW
to harmonic stations, and the reference station and tide-prediction offsets to
subordinate ones. The builder reads that list and writes a SQLite database
with three tables: stations, harmonic constituents and subordinate offsets.
Station names are normalised to title case on the way in.

The model has six modules:

- `Records` (records.dfy): the JSON objects. A key that is present is
  `Some(value)` and a key that is absent is `None`, so `dict.get(k, d)` is
  `GetOr(d)`.
- `Text` (text.dfy): the ASCII parts of Python's string library the name
  formatter uses: `isspace`, `lower`, `capitalize`, `split()`, `split(sep)`
  and `join`.
- `StationNames` (station_names.dfy): `normalize_station_name` and its helper
  `format_word`.
- `StationDatabase` (station_database.dfy): the row mapping and the
  insert-or-replace writes. The database file is the class `TideDatabase`, and
  each table is a `map` field from primary key to row. The build loop is a
  method over it, proved against the function `BuildTables`.
- `Fetcher` (fetcher.dfy): the retry loop of the three `fetch_*` helpers,
  `filter_stations` with its sorted report of missing ids, the choice of
  stations, and the enrichment loop of `main`.
- `Pipeline` (pipeline.dfy): how the fetcher's tags and the builder's
  branches line up.

The network is a parameter of the model. For each station and each
endpoint, the model is given the response of every attempt: data, 404, a
request error, or an undecodable body. Every fetch is then a function of
those responses. A body that is not JSON raises a `ValueError`. From
`requests` 2.27 on, that error is also a `RequestException`. Which of the two
holds is a parameter too (`jsonIsRequestError`). Without it, only the datum
helper catches the error. With it, every helper retries it, and the run
completes whatever the endpoints answer, as long as every datum entry has
both keys (`EnrichAllCompletes`).

Notes where the code and its comments differ (the model follows the code):

- The backoff comment says "1s, 2s, 4s". With three attempts only the waits 1
  and 2 ever happen.
- The `normalize_station_name` docstring lists "MCDONALD POINT" → "McDonald
  Point". The code has no rule for "Mc" and produces "Mcdonald Point". That
  example is not claimed.
- The schema declares foreign keys, but the builder never enables SQLite's
  foreign-key enforcement. A subordinate station's `referenceStationId` is
  therefore not checked. The model proves that every constituent and offset
  row has its station row (`BuiltTablesLinked`), and proves nothing about
  reference stations.

## Model

| member | source | states |
|---|---|---|
| Text.IsSpace | tools/data-pipeline/build_database.py:38 | definition of `str.isspace` on one ASCII character: space, the controls 9-13 and the separators 28-31; `Words` and `Blank` are stated in its terms |
| Text.Blank | tools/data-pipeline/build_database.py:38 | definition of `not name or name.isspace()`: every character is whitespace; `Text.Words` states that a name is blank exactly when it has no words |
| Text.Lower | tools/data-pipeline/build_database.py:64 | definition of `str.lower` on ASCII; `LowerLower`, `LowerCapitalize` and `LowerConcat` state that it is idempotent, absorbs capitalising and distributes over concatenation |
| Text.Capitalize | tools/data-pipeline/build_database.py:71 | definition of `str.capitalize` on ASCII; `CapitalizeLower` states that lowering first changes nothing |
| Text.JoinWith | tools/data-pipeline/build_database.py:82 | definition of `sep.join(parts)`; `JoinSplit`, `SplitJoin` and `WordsOfJoin` state its round trips with the two splits |
| Text.Words | tools/data-pipeline/build_database.py:74 | `name.split()`: the words are non-empty runs without whitespace, and there are none exactly when the name is blank |
| Text.WordsAtSpace | tools/data-pipeline/build_database.py:74 | whitespace separates words: the words of text around a whitespace character are the words before it followed by the words after it |
| Text.SplitOn | tools/data-pipeline/build_database.py:57 | `word.split("'")`: at least one part, and no part contains the separator |
| Text.SplitJoin | tools/data-pipeline/build_database.py:57-58 | joining parts that contain no separator, then splitting on it, gives the parts back |
| Text.WordsOfJoin | tools/data-pipeline/build_database.py:82 | splitting words joined by single spaces gives the words back |
| StationNames.FormatWord | tools/data-pipeline/build_database.py:44-71 | definition of `format_word`, branch by branch; its behaviour is stated by the `FormatWord…` and `…WordRule` lemmas below |
| StationNames.NormalizedName | tools/data-pipeline/build_database.py:38-82 | definition of `normalize_station_name`: a blank name as is, otherwise the formatted words joined by single spaces; stated by `NormalizedWords` and the lemmas after it |
| StationNames.FormatAll | tools/data-pipeline/build_database.py:77-80 | one formatted word per input word |
| StationNames.FormatAllParens | tools/data-pipeline/build_database.py:79 | a formatted word ends with "(" exactly when its raw word does |
| StationNames.FormatAllAt | tools/data-pipeline/build_database.py:77-80 | word i is formatted as first when i = 0, and as following "(" when word i−1 ends with "(". Checking the formatted previous word is the same as checking the raw one |
| StationNames.NormalizeStationName | tools/data-pipeline/build_database.py:22-82 | the loop returns a blank name unchanged and otherwise computes `NormalizedName` (the formatted words joined by single spaces) |
| StationNames.NormalizedWords | tools/data-pipeline/build_database.py:73-82 | a non-blank name comes out non-blank; its words are the input's words, each formatted, joined by single spaces; the word count is kept |
| StationNames.FormatWordChangesOnlyCase | tools/data-pipeline/build_database.py:44-71 | formatting a word changes only the case of its letters |
| StationNames.FormatWordIgnoresCase | tools/data-pipeline/build_database.py:44-71 | a word's format does not depend on the case of its input |
| StationNames.FormatWordIdempotent | tools/data-pipeline/build_database.py:44-71 | formatting a formatted word changes nothing |
| StationNames.FormattedWordShape | tools/data-pipeline/build_database.py:44-71 | a formatted word is still non-empty and free of whitespace |
| StationNames.EndsWithUpToCase | tools/data-pipeline/build_database.py:79 | strings equal up to case agree on ending with "(" |
| StationNames.FormatAllShape | tools/data-pipeline/build_database.py:77-80 | formatted words stay non-empty and free of whitespace |
| StationNames.FormatAllChangesOnlyCase | tools/data-pipeline/build_database.py:77-80 | formatting the word list changes only letter case |
| StationNames.FormatAllIdempotent | tools/data-pipeline/build_database.py:77-80 | formatting the formatted word list changes nothing |
| StationNames.NormalizedNameChangesOnlyCase | tools/data-pipeline/build_database.py:73-82 | up to case, the result is the words joined by single spaces |
| StationNames.NormalizeIdempotent | tools/data-pipeline/build_database.py:22-82 | normalising a normalised name returns it unchanged |
| StationNames.NormalizedWordAt | tools/data-pipeline/build_database.py:77-80 | word i of the result is word i of the input, formatted with its own position and predecessor |
| StationNames.PlainWordRule | tools/data-pipeline/build_database.py:64-71 | a word without "(", "'" or a trailing "," is lower-cased if it is a minor word and not first and not after "("; otherwise it is capitalised |
| StationNames.MinorWordRule | tools/data-pipeline/build_database.py:42-79 | at name level: a plain minor word stays lower case unless it is first or follows a word ending in "("; every other plain word is capitalised |
| StationNames.CommaWordRule | tools/data-pipeline/build_database.py:60-71 | a plain stem followed by "," is formatted by the plain-word rule and keeps its comma |
| StationNames.CommaRule | tools/data-pipeline/build_database.py:60-62 | a trailing comma is kept and the word before it follows the same rule |
| StationNames.ParenWordRule | tools/data-pipeline/build_database.py:49-53 | "(" followed by a plain word keeps the parenthesis and capitalises the word, minor or not, in any position |
| StationNames.ParenRule | tools/data-pipeline/build_database.py:49-53 | a leading "(" is kept and the rest is capitalised even if it is a minor word |
| StationNames.ApostropheRule | tools/data-pipeline/build_database.py:55-58 | a word with "'" is split on it, and each part is capitalised on its own, in any position |
| StationNames.CapitalizedAt | tools/data-pipeline/build_database.py:66-71 | a plain word that is first, follows "(", or is not minor comes out capitalised |
| StationNames.NormalizedFromWords | tools/data-pipeline/build_database.py:74-82 | a name given as words joined by single spaces normalises to the formatted words joined by single spaces |
| StationNames.ExampleSanFrancisco | tools/data-pipeline/build_database.py:27 | "SAN FRANCISCO" → "San Francisco" |
| StationNames.ExampleNewYork | tools/data-pipeline/build_database.py:28 | "NEW YORK (THE BATTERY)" → "New York (The Battery)" |
| StationNames.ExampleOBrien | tools/data-pipeline/build_database.py:29 | "O'BRIEN ISLAND" → "O'Brien Island" |
| StationNames.UnknownIsNormalized | tools/data-pipeline/build_database.py:197 | the default name "Unknown" normalises to itself |
| StationDatabase.StationRowOf | tools/data-pipeline/build_database.py:196-216 | definition of the row `insert_station` writes, with its defaults; `Defaults` and `StationRowIsLastRecord` state what it holds |
| StationDatabase.ConstituentRowOf | tools/data-pipeline/build_database.py:230-241 | definition of the row written for one constituent; `UpsertLastWins` and `ExampleConstituentRows` state what it holds |
| StationDatabase.OffsetRowOf | tools/data-pipeline/build_database.py:252-267 | definition of the row `insert_subordinate_offsets` writes; `Defaults` states its defaults |
| StationDatabase.UpsertConstituents | tools/data-pipeline/build_database.py:232-241 | definition of the insert-or-replace loop over the constituent list; `UpsertUntouched`, `OtherStationsUntouched`, `UpsertProvenance` and `UpsertLastWins` state its effect |
| StationDatabase.HarmonicBranch | tools/data-pipeline/build_database.py:308-314 | definition of the branch test: type "harmonic" (the default) and a "harmonics" key; `Pipeline.EnrichedBranchAgrees` ties it to the fetcher's tag |
| StationDatabase.OffsetBranch | tools/data-pipeline/build_database.py:317-319 | definition of the offset-row test in the other branch; `OffsetProvenance` states its use |
| StationDatabase.BuildTables | tools/data-pipeline/build_database.py:306-326 | definition of the tables after the build loop, or the abort; `TideDatabase.Build` is proved against it and `BuildFailsIff`, `BuiltTablesLinked` and the provenance lemmas state its properties |
| StationDatabase.HarmonicCount | tools/data-pipeline/build_database.py:303-316 | definition of the harmonic counter; `TideDatabase.Build` and `Pipeline.HarmonicCountIsTagCount` state its value |
| StationDatabase.TideDatabase.constructor | tools/data-pipeline/build_database.py:288-299 | a fresh database file has three empty tables |
| StationDatabase.TideDatabase.InsertStation | tools/data-pipeline/build_database.py:180-216 | a record with an id maps that id to the row built with the defaults, and no other key changes; a record without an id fails the NOT NULL key and changes nothing |
| StationDatabase.TideDatabase.InsertHarmonics | tools/data-pipeline/build_database.py:219-241 | the constituent rows are upserted in list order under (station id, name). It succeeds exactly when every constituent has a name; rows before the first unnamed one stay written; other tables are unchanged |
| StationDatabase.TideDatabase.InsertSubordinateOffsets | tools/data-pipeline/build_database.py:244-267 | the station id maps to the offset row (time offsets default 0, height factors 1.0); nothing else changes |
| StationDatabase.TideDatabase.Build | tools/data-pipeline/build_database.py:270-328 | starting from a fresh file, the tables end as `BuildTables(records)`. The harmonic count is the number of harmonic-branch records, and the two counts sum to the number of records. When a statement fails, the build stops with the tables empty |
| StationDatabase.BuildFailsIff | tools/data-pipeline/build_database.py:306-328 | the build fails exactly when some record has no id, or takes the harmonic branch with an unnamed constituent |
| StationDatabase.AbortIsFinal | tools/data-pipeline/build_database.py:306-328 | a failure part-way fails the whole build |
| StationDatabase.UpsertUntouched | tools/data-pipeline/build_database.py:232-241 | a key that no constituent writes keeps its presence and its row |
| StationDatabase.OtherStationsUntouched | tools/data-pipeline/build_database.py:232-241 | one station's constituents never touch another station's rows |
| StationDatabase.UpsertProvenance | tools/data-pipeline/build_database.py:232-241 | every new key is (this station, the name of one of its constituents) |
| StationDatabase.UpsertLastWins | tools/data-pipeline/build_database.py:232-241 | for a repeated constituent name, the row is built from the last constituent with that name |
| StationDatabase.StepKeepsLinked | tools/data-pipeline/build_database.py:306-326 | one iteration keeps every constituent and offset row attached to a station row |
| StationDatabase.BuiltTablesLinked | tools/data-pipeline/build_database.py:306-326 | because each station row is written before its other rows, every constituent and offset stationId is a key of the stations table |
| StationDatabase.StationRowIsLastRecord | tools/data-pipeline/build_database.py:211-216 | a station's row is built from the last record with that id |
| StationDatabase.StationKeys | tools/data-pipeline/build_database.py:306-311 | the stations table's keys are exactly the records' ids |
| StationDatabase.ConstituentProvenance | tools/data-pipeline/build_database.py:313-316 | a constituent row exists only for a harmonic-branch record with that id and a constituent of that name |
| StationDatabase.OffsetProvenance | tools/data-pipeline/build_database.py:317-325 | an offset row exists only for a record in the other branch that has both "referenceStationId" and "tidepredoffsets" |
| StationDatabase.ConstituentsBelongToHarmonicStations | tools/data-pipeline/build_database.py:313-316 | with distinct ids, every constituent row belongs to a station stored with type "harmonic" |
| StationDatabase.Defaults | tools/data-pipeline/build_database.py:196-210 | a station with only an id gets name "Unknown", state "Unknown", position 0, type "harmonic", zone 0, no reference and datum offset 0; an empty offsets object gives zero shifts and unit factors |
| StationDatabase.ExampleStationRow | tools/data-pipeline/build_database.py:196-216 | the San Francisco record maps to a row named "San Francisco" |
| StationDatabase.ExampleConstituentRows | tools/data-pipeline/build_database.py:230-241 | its single M2 constituent maps to amplitude 1.2, phase 45.0 |
| StationDatabase.ExampleBuild | tools/data-pipeline/build_database.py:306-328 | building from that one record gives exactly one station row and one constituent row |
| Fetcher.Retryable | tools/data-pipeline/fetch_noaa_data.py:186-264 | definition of the failures each helper catches: request errors everywhere, and a body that is not JSON in the datum helper, or in every helper when the installed `requests` makes that error a request error |
| Fetcher.RetryFrom | tools/data-pipeline/fetch_noaa_data.py:173-197 | definition of the retry loop from a given attempt, as a result, an attempt count and the waits; `RetryFromFacts` states its behaviour |
| Fetcher.RetryFromFacts | tools/data-pipeline/fetch_noaa_data.py:173-197 | the loop stops at the first answer that is not a caught failure, or after MaxRetries attempts. It waits 2**k after each failed attempt k except the last. The final answer decides the result: data, None for a 404 or exhausted retries, or an escaping exception |
| Fetcher.FetchWithRetry | tools/data-pipeline/fetch_noaa_data.py:173-197 | the loop with its early returns yields exactly the result, attempt count and waits of `RetryFrom` from attempt 0, whose behaviour `RetryFromFacts` states |
| Fetcher.ExhaustedRetries | tools/data-pipeline/fetch_noaa_data.py:186-197 | three request errors give waits [1, 2], three attempts and None |
| Fetcher.UndecodableBody | tools/data-pipeline/fetch_noaa_data.py:182-275 | a body that is not JSON is retried by the datum helper, ending in None. When that error is not a request error, the harmonics and offsets helpers let it escape after one attempt; when it is, they retry it and end in None too |
| Fetcher.DatumsNeverRaise | tools/data-pipeline/fetch_noaa_data.py:252-275 | the datum helper never lets an exception escape |
| Fetcher.NoHelperRaises | tools/data-pipeline/fetch_noaa_data.py:173-275 | when a body that is not JSON counts as a request error, no helper lets an exception escape |
| Fetcher.FilterStations | tools/data-pipeline/fetch_noaa_data.py:104-105 | the result is no longer than the input, and every station in it has a requested id |
| Fetcher.FilterConcat | tools/data-pipeline/fetch_noaa_data.py:105 | filtering distributes over concatenation, so the stations keep their original order |
| Fetcher.FilterMembership | tools/data-pipeline/fetch_noaa_data.py:105 | a station is in the result exactly when it is in the input with a requested id |
| Fetcher.FilterEmptyIff | tools/data-pipeline/fetch_noaa_data.py:105 | no station survives the filter exactly when no station has a requested id |
| Fetcher.MissingIds | tools/data-pipeline/fetch_noaa_data.py:103-109 | definition of `id_set - found_ids`; `MissingIdsIff` states which ids it holds |
| Fetcher.MissingIdsIff | tools/data-pipeline/fetch_noaa_data.py:108-109 | an id is missing exactly when it was requested and no station carries it |
| Fetcher.LeastExists | tools/data-pipeline/fetch_noaa_data.py:113 | a non-empty set of ids has a least element in Python's string order |
| Fetcher.SortedIds | tools/data-pipeline/fetch_noaa_data.py:113 | `sorted(...)` of a set lists each element once, in strictly increasing order |
| Fetcher.MissingReport | tools/data-pipeline/fetch_noaa_data.py:108-114 | the warning lists every missing id once, in sorted order; the ids it lists are exactly the requested ids that no station carries |
| Fetcher.StationsToProcess | tools/data-pipeline/fetch_noaa_data.py:295-307 | the chosen list is never empty. Production mode uses all stations and stops only when there are none. Custom and test mode go on exactly when the filter of the custom ids, or of the test ids, is non-empty, and then process that filtered list |
| Fetcher.SelectionStopsIff | tools/data-pipeline/fetch_noaa_data.py:295-307 | in custom and test mode the run stops only when no requested id is found: it stops exactly when the missing-id warning lists every requested id |
| Fetcher.FirstIndex | tools/data-pipeline/fetch_noaa_data.py:352-353 | where the generator stops: the first entry without a "name" key or with the name, or the list length if there is none; every entry before it has a different name |
| Fetcher.FirstValue | tools/data-pipeline/fetch_noaa_data.py:352-353 | definition of what `next(...)` yields: the value of the entry found, None when there is none, or a `KeyError` when that entry lacks a key |
| Fetcher.DatumOffsetOf | tools/data-pipeline/fetch_noaa_data.py:349-355 | definition of the datum step: Z0, nothing, or the `KeyError` that ends the run; `DatumOffsetIff` states its behaviour |
| Fetcher.DatumOffsetIff | tools/data-pipeline/fetch_noaa_data.py:349-355 | on a list whose entries have both keys: no `KeyError`, and Z0 exists exactly when the list has an "MSL" and an "MLLW" entry. Z0 is always the first MSL value minus the first MLLW value. A nameless first entry raises `KeyError` |
| Fetcher.EnrichStation | tools/data-pipeline/fetch_noaa_data.py:333-380 | definition of one iteration on values; `EnrichStationFacts`, `EnrichStationStops` and `EnrichStationCompletes` state its behaviour |
| Fetcher.EnrichAll | tools/data-pipeline/fetch_noaa_data.py:320-382 | definition of the loop's outcome; `EnrichAllStops`, `EnrichAllShape` and `EnrichAllCompletes` state its behaviour |
| Fetcher.EnrichOne | tools/data-pipeline/fetch_noaa_data.py:332-380 | one iteration, with its three fetches going through the retry loop, computes `EnrichStation`: the tagged and enriched station, or a stop when the harmonics or offsets fetch lets an exception escape or the datum scan raises `KeyError` |
| Fetcher.EnrichStations | tools/data-pipeline/fetch_noaa_data.py:320-382 | the loop computes `EnrichAll`: every station enriched in turn and appended, or a stop on an escaping exception |
| Fetcher.EnrichStopIsFinal | tools/data-pipeline/fetch_noaa_data.py:322-382 | an exception that escapes for one station ends the whole run |
| Fetcher.EnrichAllStops | tools/data-pipeline/fetch_noaa_data.py:320-382 | the run stops exactly when some station's iteration raises |
| Fetcher.EnrichAllShape | tools/data-pipeline/fetch_noaa_data.py:320-382 | a completed run has one enriched station per input station, in the same order, each the result of that station's iteration |
| Fetcher.EnrichStationFacts | tools/data-pipeline/fetch_noaa_data.py:333-372 | the station list's keys are kept. The type is "harmonic" exactly when the harmonics are present with a non-empty list, else "subordinate". `datumOffset` is set to Z0 for a harmonic station whose datum list yields one, and changes for no other station. `referenceStationId` is set exactly on subordinate stations with a non-empty reference_id. `tidepredoffsets` is set exactly when such a station's offsets fetch returns a non-empty object |
| Fetcher.EnrichStationStops | tools/data-pipeline/fetch_noaa_data.py:337-370 | a station stops the run exactly when its harmonics fetch raises, or it is harmonic and its datum scan raises `KeyError`, or it is subordinate with a reference and its offsets fetch raises |
| Fetcher.EnrichStationCompletes | tools/data-pipeline/fetch_noaa_data.py:173-380 | when a body that is not JSON counts as a request error and the station's datum entries all have both keys, its iteration does not stop the run |
| Fetcher.EnrichAllCompletes | tools/data-pipeline/fetch_noaa_data.py:173-382 | under the same conditions for every station, the run completes whatever the endpoints answer |
| Fetcher.UndecodableHarmonicsStops | tools/data-pipeline/fetch_noaa_data.py:182-186 | when that error is not a request error, a harmonics body that is not JSON ends the run |
| Fetcher.CountKind | tools/data-pipeline/fetch_noaa_data.py:388-389 | definition of `sum(1 for s in ... if s.get('type') == kind)`; `TaggedCountsSum` and `Pipeline.CountsAgree` state its value |
| Fetcher.TaggedCountsSum | tools/data-pipeline/fetch_noaa_data.py:388-389 | when every station is tagged one of the two types, the two counts sum to the total |
| Fetcher.EnrichedCountsSum | tools/data-pipeline/fetch_noaa_data.py:388-389 | in a completed run, the harmonic and subordinate counts sum to the number of stations |
| Pipeline.EnrichedBranchAgrees | tools/data-pipeline/build_database.py:314 | the builder takes the constituent branch for an enriched station exactly when the fetcher tagged it "harmonic" |
| Pipeline.HarmonicCountIsTagCount | tools/data-pipeline/build_database.py:314-316 | when branch and tag agree, the builder's harmonic count is the number of harmonic-tagged stations |
| Pipeline.CountsAgree | tools/data-pipeline/build_database.py:303-326 | on the fetcher's output, the builder's harmonic and subordinate counts equal the fetcher's |

## Left out

- HTTP requests, timeouts, `time.sleep` and the 0.5 s delay between requests are left out. The responses are parameters, and the retry waits are returned as a list.
- The station-list download (`fetch_stations`), argument parsing, output-file naming, progress and summary printing, the JSON file read and write, the database-size report and the verification `COUNT(*)` queries are I/O and are not modelled. Splitting the `--stations` argument on commas is not modelled either: a custom run is given its id list.
- SQLite connections, the DDL and commit are modelled only through their effect. Each table is a map, a fresh file has empty tables, and a failed build leaves the tables empty. The exception that ends such a build is the `Aborted` outcome.
- The only statement failures modelled are the NOT NULL constraints that an absent key can violate: a station id and a constituent name. JSON `null` values and values of the wrong type are not modelled. The model takes a key as either present with a value of the expected type, or absent.
- Floating-point numbers are modelled as exact `real`s, and the `float()`/`int()` coercions are left out, including the `ValueError` that `float(d["value"])` raises on a value that is not a number. A missing "name" or "value" key in a datum entry is modelled: it raises `KeyError` and ends the run.
- Foreign keys, including cascade deletes and the reference-station reference, are not modelled. They are never enforced, as noted above.
- Case mapping and whitespace are ASCII only. Python's Unicode `lower`, `capitalize` and `isspace` are not modelled.
- The station objects are modelled as values. The fetcher updates the dictionaries in place, and those dictionaries are shared with the full station list. That aliasing is not modelled, and neither is the order in which keys are added.
- Fetcher.EnrichStation: a non-empty `reference_id` stands for any truthy value. The harmonics document counts as usable when its constituent list is non-empty, which already makes the document truthy.
