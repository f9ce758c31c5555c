# netatmo-data-downloader: the fetch-and-reshape core, in Dafny

This project models the core of `utils/netatmo-buddy.js` in netatmo-data-downloader and proves properties of the model. The core is the code that downloads historical readings from Netatmo's public weather stations and reshapes them into one record per station and timestamp. It has five parts:

- **Alias table** (`aliases.dfy`, module `Aliases`): `varMap` and `var2modVar`. They turn a requested variable name such as `MAX_TEMP` into the sensor category (`temperature`) that a station files its modules under.
- **Station descriptors** (`stations.dfy`, module `Stations`):
  - `makeStationList` turns directory records into station descriptors. It classifies each module by its id prefix (`05` rain, `06` wind) or by its `type` list, and the last write wins.
  - The row mapping of `csv2stations` reads a cached descriptor back from one CSV row. Only non-empty module-id cells are kept.
  - The column layout that `stations2csv` writes is modelled too, which lets the round trip through the cache file be stated.
- **Paginator** (`paginator.dfy`, module `Paginator`): `getManyMeasures`.
  - The server returns at most 1024 timestamps per `getmeasure` answer. While an answer is full, the paginator asks again from the last timestamp it received.
  - Every answer is merged into one map, and a later answer overwrites an earlier one on a shared timestamp.
  - The remote call `getMeasures` is an oracle `fetch: Window -> Result<Page>`. Since the oracle is a function, every operation that calls it also returns the list of requests it sent.
- **Variable merger** (`merger.dfy`, module `Merger`): `multipleVars`. It fetches every requested variable of one station in order and folds the answers into `inter[timestamp][variable]`. It then emits one record per timestamp, with a field for every requested variable.
- **Station batch** (`batch.dfy`, module `Batch`): `multipleStats`. It runs the merger for each station in turn, concatenates the records in station order, and stops at the first error.

`keys.dfy` (module `Keys`) gives JavaScript's key enumeration order a definition. Array-index keys of an object (integers from 0 to 2^32 - 2) are visited in ascending numeric order, so `Object.keys(obs)` and `for (key in inter)` list timestamps smallest first. `wrappers.dfy` holds the `Option` and `Result` types. `Option` stands for JavaScript's `undefined`. `Result` stands for a Node-style `(err, value)` callback.

## Design

- Loops that update state are methods with loop invariants. Each method is proved equal to a specification function on values: a left fold over the input prefix, or a recursive run definition. The properties are then proved as lemmas about those functions.
- Some properties have a second, independent definition next to the specification function. `LastFiling`, `LastHolding`, `FirstFailure` and `FirstError` scan the input directly, and lemmas tie them to the fold: last-write-wins, union with overwrite, and first error.
- The paginator's run is the ghost function `Paginator.Rounds`. It lists each request with its answer.
  - The loop ends only if the server behaves. So the paginator requires the oracle to return timestamps inside the requested window (`WithinWindow`).
  - Under that assumption, a full answer has a last timestamp strictly after `date_begin`, so the window shrinks at every round.

Behaviours of the code worth knowing, each stated as the code has it:

- The measurement request's `type` is the variable name as the caller wrote it (line 564), not its category.
- Records come out in ascending timestamp order, which is the enumeration order of `inter`'s array-index keys.
- `multipleStats` has no pause between stations. The 0.3 s pause is in `tasks/get-amsterdam-data/get-data.js`, which is not part of this model.
- The comment on `csv2stations` (lines 299-300) says it loads the station list in the same format it had before being saved. The code disagrees for wind, and the model follows the code: the cache file has no wind column, so a station's wind module does not survive a write and read of the cache (`Stations.CacheRoundTrip`).

## Model

| member | source | states |
|---|---|---|
| Aliases.ToLower | utils/netatmo-buddy.js:750 | keeps the length, lower-cases each ASCII capital and no other character, and leaves no capital behind |
| Aliases.ToLowerIdempotent | utils/netatmo-buddy.js:750 | lower-casing twice is lower-casing once |
| Aliases.Var2ModVar | utils/netatmo-buddy.js:747-758 | a name whose lower-case form is in `varMap` resolves to that entry, which is one of the five categories; any other name resolves to its lower-case form; the result is always lower case |
| Aliases.TableIsLower | utils/netatmo-buddy.js:717-743 | every `varMap` value is a lower-case category and is itself a key that maps to itself |
| Aliases.CaseInsensitive | utils/netatmo-buddy.js:750-753 | resolving a name gives the same category as resolving its lower-case form |
| Aliases.Var2ModVarIdempotent | utils/netatmo-buddy.js:747-758 | resolving a resolved name changes nothing |
| Aliases.MaxTempIsTemperature | utils/netatmo-buddy.js:725 | `MAX_TEMP` resolves to `temperature` |
| Aliases.SumRainIsRain | utils/netatmo-buddy.js:732 | `sum_rain` resolves to `rain` |
| Aliases.Co2IsPressure | utils/netatmo-buddy.js:719 | `co2` resolves to `pressure` |
| Aliases.UnknownNameIsKept | utils/netatmo-buddy.js:754-757 | a name missing from the table, `unknown_xyz`, is returned unchanged |
| Keys.Max | utils/netatmo-buddy.js:474-476 | the last of a page's ascending keys is a key of the page and no key is larger |
| Keys.LastKey | utils/netatmo-buddy.js:474-476 | the loop that finds `times[times.length - 1]` returns the largest key |
| Keys.FirstKey | utils/netatmo-buddy.js:610 | the loop returns the smallest key of a non-empty key set |
| Keys.AscendingEnumerates | utils/netatmo-buddy.js:610 | the enumeration order of array-index keys lists every key exactly once, in strictly ascending order, and has as many entries as there are keys |
| Keys.AscendingKeys | utils/netatmo-buddy.js:610 | the method builds exactly that enumeration order |
| Stations.AssignTypes | utils/netatmo-buddy.js:187-191 | after a module's `type` list is assigned, the categories are the old ones plus the listed ones, every listed category holds the module id, and every other category keeps its id |
| Stations.FileModuleWrites | utils/netatmo-buddy.js:172-192 | one `measures` entry adds exactly the categories it files (rain for `05`, wind for `06`, its `type` list otherwise), sets them to its own id, and leaves every other category unchanged |
| Stations.LastModuleWins | utils/netatmo-buddy.js:164-194 | a category is present exactly when some entry files a module under it, and it then holds the id of the last such entry |
| Stations.FiledEntryIsPresent | utils/netatmo-buddy.js:164-194 | every entry that files under a category makes the category present, and comes no later than the entry whose id it holds |
| Stations.ClassifyModules | utils/netatmo-buddy.js:161-194 | the nested loops over `measures` and `type` produce the classification above |
| Stations.Describe | utils/netatmo-buddy.js:150-194 | one record's descriptor copies its id, coordinates, altitude and timezone, and holds under each category exactly the id of the last module filed there |
| Stations.MakeStationList | utils/netatmo-buddy.js:140-204 | one descriptor per directory record, in input order, with `device_id`, `lon`, `lat`, `altitude` and `timezone` copied from the record and `variables` as classified |
| Stations.RowVariablesKeepNonEmpty | utils/netatmo-buddy.js:341-345 | each header's category is present exactly when its cell is non-empty, and then holds the cell; no other category appears |
| Stations.CacheColumns | utils/netatmo-buddy.js:319-345 | for the four cache columns: `t_id`, `h_id`, `p_id` and `r_id` give `temperature`, `humidity`, `pressure` and `rain` exactly when non-empty, and nothing else is produced |
| Stations.RowToStation | utils/netatmo-buddy.js:337-354 | the row callback builds the descriptor from the row's cells, with `Number` applied to `lon`, `lat` and `altitude` |
| Stations.CacheRow | utils/netatmo-buddy.js:278-279 | the written row has exactly the nine columns, the station's id and timezone, and in each module-id column that `header2var` reads the id of its category or an empty cell |
| Stations.CachedModuleIds | utils/netatmo-buddy.js:278-279 | the module-id columns written for a station read back as exactly its non-empty temperature, humidity, pressure and rain ids |
| Stations.CacheRoundTrip | utils/netatmo-buddy.js:278-279 | when `Number` inverts the formatting of the station's `lon`, `lat` and `altitude`, writing a descriptor to the cache and reading it back gives it again except that only those ids survive; in particular a wind module is lost |
| Paginator.FullPageAdvances | utils/netatmo-buddy.js:472-478 | a full answer inside the window has its last timestamp strictly after `date_begin` and at most `date_end`, so moving `date_begin` there shrinks the window |
| Paginator.NextWindow | utils/netatmo-buddy.js:474-478 | after a non-empty answer the next request is the same except that `date_begin` is the answer's largest timestamp |
| Paginator.MergePage | utils/netatmo-buddy.js:486-488 | copying an answer into `allObs` yields `allObs` overwritten by the answer |
| Paginator.Advance | utils/netatmo-buddy.js:472-488 | one answered round extends the run and the accumulated map by that round, and after a full answer the remaining window is smaller |
| Paginator.RoundFailed | utils/netatmo-buddy.js:467-469 | a failed request is the last of the run, and the run reports its error |
| Paginator.RoundDone | utils/netatmo-buddy.js:451-478 | after an answered request the run continues from the moved window exactly when the answer had 1024 timestamps, and otherwise ends there |
| Paginator.RoundAppended | utils/netatmo-buddy.js:486-488 | one more round appends its window to the request log and merges its answer last |
| Paginator.GetManyMeasures | utils/netatmo-buddy.js:431-509 | the loop returns what the run defines (the first error, or every answer merged in order) and sends exactly the run's requests |
| Paginator.RoundsShape | utils/netatmo-buddy.js:451-478 | a run has at least one request, the first for the caller's window; every answer is the oracle's answer to its request; a further request is sent exactly after a full answer, starting at that answer's largest timestamp; the run stops at the first error or short answer; every request keeps the caller's parameters except `date_begin` |
| Paginator.RequestsKeepWindow | utils/netatmo-buddy.js:437-445 | the first request is the caller's window and every request differs from it at most in `date_begin`, so the caller's parameters are never what moves |
| Paginator.AccumulateIsUnion | utils/netatmo-buddy.js:480-488 | the merged map holds exactly the timestamps of all answers, each with the values of the last answer that has it |
| Paginator.AnswerIsKept | utils/netatmo-buddy.js:486-488 | a timestamp from any answer is in the merged map, and no earlier answer supplies its value |
| Paginator.PaginateFailsOnlyAtLast | utils/netatmo-buddy.js:465-469 | a run fails exactly when its last request fails, with that error, and every earlier request was answered |
| Paginator.EmptyWindowTerminates | utils/netatmo-buddy.js:451-472 | an empty answer costs one request and yields an empty map, not an error |
| Paginator.BoundaryCountedOnce | utils/netatmo-buddy.js:480-488 | a full answer followed by a short one that shares only the boundary timestamp takes two requests and yields 1024 + n - 1 timestamps (2000 for n = 977) |
| Merger.ModuleOf | utils/netatmo-buddy.js:554-557 | a variable has a module exactly when the station's entry for its category is a non-empty id, and the module is that id |
| Merger.VarWindow | utils/netatmo-buddy.js:559-568 | the request for one variable asks for that variable under its own name, from the station's device and the given module, with the caller's token, scale and dates |
| Merger.MergeVarCell | utils/netatmo-buddy.js:577-584 | folding one variable's answer gives each of its timestamps a row whose field for that variable is the first value there; every other cell is unchanged and no timestamp is lost |
| Merger.FoldPage | utils/netatmo-buddy.js:577-584 | the loop over an answer's keys performs that fold |
| Merger.FailureSticks | utils/netatmo-buddy.js:571-573 | once a variable's fetch fails, the later variables change neither the outcome nor the request log |
| Merger.GatherFailure | utils/netatmo-buddy.js:600-603 | the series fails exactly when some requested variable that has a module fails to fetch, and then with the error of the first such variable |
| Merger.GatherCell | utils/netatmo-buddy.js:554-584 | after a successful series, a timestamp's row has a value for a variable exactly when that variable was requested, has a module, and its answer contains the timestamp; the value is the first of the answer's list there |
| Merger.GatherKeysObserved | utils/netatmo-buddy.js:579-584 | every timestamp in `inter` was returned for some requested variable |
| Merger.FillFields | utils/netatmo-buddy.js:623-627 | the loop gives a record a field for every requested variable, holding the row's value or `undefined` |
| Merger.EmitRecords | utils/netatmo-buddy.js:608-630 | the loop over `inter` emits the records of the table in key enumeration order |
| Merger.RecordsOrder | utils/netatmo-buddy.js:610-630 | there is one record per timestamp, in strictly ascending timestamp order |
| Merger.RecordsCover | utils/netatmo-buddy.js:610-630 | exactly the table's timestamps have a record; each carries the station's `device_id` and the fields of its row |
| Merger.RecordFields | utils/netatmo-buddy.js:623-627 | a record's fields are exactly the requested variables; each holds the variable's first value at that timestamp when it was fetched and has one, and is `undefined` otherwise (also when the station has no module for it) |
| Merger.MultipleVars | utils/netatmo-buddy.js:529-637 | the method returns the first fetch error, or the records of the merged table, and sends exactly the series' requests |
| Merger.MultipleVarsContents | utils/netatmo-buddy.js:604-634 | on success the records are in strictly ascending timestamp order; a timestamp has a record exactly when some requested, fetched variable returned it; each record has the station's id and one field per requested variable |
| Merger.GatherRequests | utils/netatmo-buddy.js:554-568 | every request is for the station, for a requested variable under its own name, to the station's module for its category, with the caller's token, scale and `date_end`; a variable with no module is never requested |
| Batch.MultipleStats | utils/netatmo-buddy.js:646-691 | the method returns what the batch run defines and sends exactly its requests |
| Batch.FailureSticks | utils/netatmo-buddy.js:670 | once a station fails, the later stations change neither the outcome nor the request log |
| Batch.RunFailure | utils/netatmo-buddy.js:663-684 | the batch fails exactly when some station's merge fails, with the error of the first such station, and returns no records then |
| Batch.RunConcat | utils/netatmo-buddy.js:663-687 | a successful batch returns every station's records concatenated in station-list order |
| Batch.RunStep | utils/netatmo-buddy.js:668-677 | in a successful batch every station before the last succeeded, and the last station's records follow theirs |
| Batch.RunRequests | utils/netatmo-buddy.js:663-680 | every request of the batch is for a listed station and one of the requested variables |

## Left out

- HTTP in `getToken`, `getPublic` and `getMeasures` is not modelled (`request.post`, status codes, `body.error`, the console warning at 1024). `getMeasures` is an uninterpreted oracle from a request to a page or an error.
- The `setTimeout` pauses (200 ms before every page request) are not modelled. `async.whilst` and `async.eachSeries` are plain sequential loops, so only the order of requests is kept. `console.log` output is not modelled.
- `stations2csv`, `docs2csv` and `getStationList` are not modelled, nor `fs`, `json2csv`, `csv.stringify` or `d3.csvParse`. Only the column layout `stations2csv` writes is modelled, as `CacheRow`.
- `Number(...)` and json2csv's number formatting are uninterpreted functions. The cache round trip assumes that `Number` inverts the formatting of the station's `lon`, `lat` and `altitude`.
- Aliases.ToLower: JavaScript's `toLowerCase` is modelled on the ASCII letters only. Other characters are left unchanged, so `Aliases.Var2ModVar` may differ from the source on non-ASCII names.
- Prototype lookups such as `varMap["constructor"]` are not modelled.
- `check.assert.array` and `check.assert.function` are not modelled: Dafny's types already ensure them.
- Timestamps are integers. In the source they are the string keys of a JavaScript object. The model's ascending key order holds in JavaScript only for array-index keys, 0 <= t <= 2^32 - 2; a negative or larger timestamp would be enumerated after those, in insertion order, which the model does not capture. Epoch seconds from the server are array indices.
- A row's value list holds reals. Numbers are not modelled as floating point.
- The record's `date` field (`new Date(key * 1000)`) is derived from the timestamp and is not modelled.
- A requested variable named `device_id`, `timestamp` or `date` would overwrite that record field in the source. The model keeps the fields in a separate map and does not model that collision.
- A directory module that is neither rain nor wind and has no `type` list makes the source throw. The model always has a `type` list.
- `measures` is a sequence of (module id, measure) pairs in enumeration order. Module ids are not array indices, so JavaScript enumerates them in insertion order.
- A cache column that is missing from a row reads as the empty string, the same as an empty cell.
- `tasks/get-amsterdam-data/get-data.js`, `config/config.js` and `config/components/netatmo.js` are not part of this model.
- Paginator.GetManyMeasures: requires every oracle answer to lie inside its requested window (`WithinWindow`). The source has no such guard: a server whose full answers do not advance past `date_begin` would keep it asking forever.
- Merger.MultipleVars: inherits the `WithinWindow` requirement.
- Batch.MultipleStats: inherits the `WithinWindow` requirement.
- Paginator.NextWindow: after an empty answer the source sets `date_begin` to `undefined`. The model keeps the window unchanged. The loop ends on that answer, so no request depends on it.
