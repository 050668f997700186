# Airline delays: airport → state → region enrichment

A Dafny model of `filter.js`, the script that enriches every flight record
of the Airline-Delays data set with the US state and the coarse region of
its origin and destination airports.

The script has three parts, and each is a module here:

- **Airport index** (`Airports`, filter.js:10-14). `findStateByIata` scans
  the airport table with lodash `find` and the matcher `{iata: iata}`. It
  returns the `state` of the first airport whose `iata` equals the code. An
  unknown code makes `find` return `undefined`, and the destructuring on
  line 12 throws.
- **Region index** (`Regions`, filter.js:16-51). `REGIONS` is a fixed
  five-entry table. `findRegionByState` returns the `name` of the first
  region whose `states` list contains the code; an unknown code throws on
  line 49.
- **Enrichment loop** (`Enrichment`, filter.js:59-74). Each flight, in
  order, is copied. The copy receives `StateFrom` and `StateTo` from its
  `AirportFrom` and `AirportTo` codes, then `RegionFrom` and `RegionTo` from
  those states, and is appended to `newData`. `newData` is written once,
  after the loop. A throw inside the loop ends the process before that
  write, so there is either complete output or none.

Supporting modules:

- `Lookups`: lodash `find` as "position of the first element satisfying a
  predicate", plus the error type.
- `Batch`: the abort-on-first-failure loop, generic in its per-record step.
  It has a functional definition, `Run`, and the imperative loop, `RunLoop`.
  `Enrichment.Enrich` is `Run` with the enrichment step, and
  `Enrichment.EnrichOne` is that step written statement by statement as on
  lines 63-69.
- `Wrappers`: `Option` and `Result`.

Modelling choices:

- A JavaScript throw is an explicit `Failure`. Every lookup result is a
  `Result`, and a run is either `Success(records)` or
  `Failure(Abort(index, error))`. A `Failure` is exactly the case in which
  the source never reaches `writeJSON`.
- A flight record is a `map<string, string>`. An airport keeps only `iata`
  and `state`.
- The script builds each enriched record as a shallow copy (`{...flight}`)
  and never writes to the input list. Records here are immutable values, so
  the input is unchanged by construction. What needs proof is that the copy
  keeps every input key and the value of every field except the four it
  adds. Those four are overwritten if the input already has them, as the
  assignments on lines 65-69 do. `EnrichRecordSuccess` and
  `EnrichedFlight` state this.
- The airport table and the flight list are parameters; the script loads
  them from `airports.json` and `airlines.json`.
- The enrichment functions also take the region table as a parameter. The
  script always uses its fixed table, which is `Regions.REGIONS`, and
  every fact about that table (partition, coverage, placements) is proved
  about `REGIONS` itself. `Regions.RegionOf` is the lookup over that fixed
  table.
- A record may lack an `AirportFrom` or `AirportTo` field. The script then
  passes `undefined` to `findStateByIata`. No airport matches it, so the
  script crashes on line 12 exactly as it does for an unknown code. The
  model reports this as `AirportFieldMissing(field)` so that the cause
  stays visible.
- The error carries the record index and the offending code or field. The
  script's `TypeError` carries neither; the abort point and the absence of
  output are the same.

## Model

| member | source | states |
|---|---|---|
| `Lookups.FindIndex` | filter.js:11 | lodash `find`: the result is the position of an element satisfying the predicate with none before it, and there is no result exactly when no element satisfies it |
| `Lookups.FindIndexAppend` | filter.js:11 | elements after the first match are never consulted: appending anything keeps a found position, and a prefix with no match passes the search on to the suffix, shifted by the prefix's length |
| `Airports.StateOf` | filter.js:10-14 | `findStateByIata` succeeds exactly when some airport carries the code; it then returns the state of the earliest such airport, and otherwise fails with `AirportNotFound(code)`, with no default state |
| `Airports.Index` | filter.js:10-14 | a code-keyed map of the airport table whose keys are exactly the codes some airport carries |
| `Airports.StateOfMatchesIndex` | filter.js:10-14 | for every code, the first-match scan and the code-keyed map (earliest airport wins) give the same state, and fail on the same codes |
| `Airports.StateOfAppend` | filter.js:10-14 | later duplicates are never consulted: a code known in a prefix of the table resolves as in that prefix whatever follows, and a code the prefix does not know is resolved by the rest alone |
| `Regions.RegionIn` | filter.js:42-51 | `findRegionByState` over a region table: succeeds exactly when some region lists the code, returns the name of the first such region in table order, and otherwise fails with `RegionNotFound(code)` |
| `Regions.RegionOf` | filter.js:18-51 | over the fixed table: succeeds exactly on the fifty states, DC, PR and VI; for a code listed in region `i` the result is region `i`'s name, so first match is the unique containing region |
| `Regions.TableIsPartition` | filter.js:18-39 | no code appears in two regions or twice in one region's list |
| `Regions.PartitionSize` | filter.js:18-39 | a region table listing no code twice covers exactly as many codes as it has entries |
| `Regions.TableCoversStatesAndAreas` | filter.js:17-39 | the table covers exactly the fifty states plus DC, PR and VI: 53 distinct codes, 50 of them states |
| `Regions.NotedPlacements` | filter.js:17-37 | AK and HI map to West, PR and VI to Southeast, DC to Northeast, NY to Northeast and CA to West |
| `Regions.NamesDistinct` | filter.js:18-39 | the five region names are pairwise different |
| `Enrichment.WithDerived` | filter.js:63-69 | the spread copy with the four assignments: the result has the input's keys plus the four new ones, every other field keeps its value, an existing `StateFrom`, `StateTo`, `RegionFrom` or `RegionTo` is overwritten, and the four fields hold the given values |
| `Enrichment.EnrichRecord` | filter.js:63-69 | the loop body for one flight; its properties are stated by `EnrichRecordSuccess` (shape of a success) and `EnrichRecordFailure` (which lookup fails first) |
| `Enrichment.Enrich` | filter.js:60-72 | the whole loop: its result is a run outcome of the enrichment step, meaning one enriched record per flight in order or an abort at the first failing flight, and it succeeds exactly when every flight's enrichment does; per-record contents are stated by `EnrichedFlight` |
| `Enrichment.EnrichRecordSuccess` | filter.js:63-69 | an enriched record has the input's keys plus the four new ones, every other field unchanged (removing the four gives back the input without them), the states of the first airports carrying its two codes, and the regions of those states |
| `Enrichment.EnrichRecordFailure` | filter.js:63-69 | a record fails exactly when one of its four lookups fails, and the reported error is the first failing one, in the order origin state, destination state, origin region, destination region |
| `Enrichment.EnrichOne` | filter.js:63-69 | the step-by-step assignments to the copy, each region read back from the state just stored, produce exactly the enriched record or its first failure |
| `Batch.RunLoop` | filter.js:60-72 | the imperative loop buffering results in `newData` either returns one result per input, in order, or returns the index and error of the first failing element and no output; it agrees with `Run` |
| `Enrichment.EnrichedFlight` | filter.js:60-72 | on a completed run the output has as many records as the input, and output record `i` is flight `i` with its four derived fields added and nothing else changed |
| `Enrichment.JfkToLax` | filter.js:60-72 | a JFK→LAX flight, given JFK in NY and LAX in CA, gains StateFrom NY, StateTo CA, RegionFrom Northeast and RegionTo West and keeps its other fields |
| `Enrichment.UnknownAirport` | filter.js:10-14 | a flight from an unknown airport "ZZZ" aborts the run at index 0 with `AirportNotFound("ZZZ")`, producing no output |
| `Enrichment.EmptyRun` | filter.js:60-74 | an empty flight list completes with an empty output |
| `Batch.Run` | filter.js:60-74 | the output has one result per input in order, or the run aborts at the first failing element, all earlier ones having succeeded; it succeeds exactly when every element's step does |
| `Batch.OutcomeUnique` | filter.js:60-72 | a run has exactly one possible outcome: the loop is a deterministic function of its inputs, so running it twice gives the same result |
| `Batch.RunAppend` | filter.js:60-72 | running two consecutive parts of the input and joining the results in order equals running the whole; an abort in the second part is reported at its position in the whole |
| `Batch.RunExtend` | filter.js:61-71 | one more loop iteration either appends that element's result or aborts at its index |
| `Batch.AbortInPrefix` | filter.js:61-72 | once a prefix of the input aborts, the rest of the input has no effect on the outcome |

## Left out

- Loading `airports.json` and `airlines.json` (filter.js:4-5): file input, replaced by parameters.
- `writeJSON` and the final call (filter.js:53-57, 74): serialisation and file output. The model stops at the list that would be written, and a failed write is not modelled.
- The `console.log` calls (filter.js:7, 62): progress output with no effect on the result.
- lodash `find`'s general matcher semantics: only "first element satisfying a predicate" is modelled, with the `{iata: iata}` matcher as code equality.
- JavaScript values other than strings in flight records and airports: every field is a string. An airport without a `state` attribute is not modelled; the script would store `undefined` and then crash in the region lookup.
- Property order of the output objects: records are finite maps, so the position of the four new keys in the serialised JSON is not modelled.
