/** The enrichment loop of filter.js (lines 59-74): every flight record, in
    order, is copied and given its origin and destination state and region;
    the enriched list is written once, after the last record.

    A record is a finite map from field names to values. The airport table,
    the region table and the flight list are parameters: the source reads
    the first and last from JSON files and always uses its fixed `REGIONS`
    table, which is `Regions.REGIONS` here. The final write is not
    modelled; a run that aborts is a `Failure`, which is exactly the case in
    which the source never reaches its write. */
module Enrichment {
  import opened Wrappers
  import opened Lookups
  import opened Airports
  import opened Regions
  import opened Batch

  type Record = map<string, string>

  const AIRPORT_FROM: string := "AirportFrom"
  const AIRPORT_TO: string := "AirportTo"
  const STATE_FROM: string := "StateFrom"
  const STATE_TO: string := "StateTo"
  const REGION_FROM: string := "RegionFrom"
  const REGION_TO: string := "RegionTo"

  /** The four fields the loop adds to every record. */
  const ADDED: set<string> := {STATE_FROM, STATE_TO, REGION_FROM, REGION_TO}

  /** `findStateByIata(FLIGHTS[i][field])`. */
  function StateOfField(airports: seq<Airport>, rec: Record, field: string): Result<string, LookupError>
  {
    if field in rec then StateOf(airports, rec[field])
    else Failure(AirportFieldMissing(field))
  }

  /** The field holds a code some airport carries. */
  ghost predicate Resolves(airports: seq<Airport>, rec: Record, field: string)
  {
    field in rec && Known(airports, rec[field])
  }

  /** The copy of `rec` carrying the four derived fields: every other field
      keeps its value, and a derived field already present is overwritten. */
  function WithDerived(rec: Record, stateFrom: string, stateTo: string,
                       regionFrom: string, regionTo: string): (r: Record)
    ensures r.Keys == rec.Keys + ADDED
    ensures r - ADDED == rec - ADDED
    ensures r[STATE_FROM] == stateFrom && r[STATE_TO] == stateTo
    ensures r[REGION_FROM] == regionFrom && r[REGION_TO] == regionTo
  {
    var r := rec[STATE_FROM := stateFrom][STATE_TO := stateTo]
                [REGION_FROM := regionFrom][REGION_TO := regionTo];
    assert (r - ADDED).Keys == (rec - ADDED).Keys;
    r
  }

  /** The body of the loop for one record (lines 63-69): origin state,
      destination state, origin region, destination region, in that order,
      then the four fields added to a copy of the record. */
  function EnrichRecord(airports: seq<Airport>, regions: seq<Region>, rec: Record)
    : Result<Record, LookupError>
  {
    var stateFrom :- StateOfField(airports, rec, AIRPORT_FROM);
    var stateTo :- StateOfField(airports, rec, AIRPORT_TO);
    var regionFrom :- RegionIn(regions, stateFrom);
    var regionTo :- RegionIn(regions, stateTo);
    Success(WithDerived(rec, stateFrom, stateTo, regionFrom, regionTo))
  }

  /** An enriched record is the input record with the four derived fields
      added and every other field unchanged; the states are those of the
      first airports carrying the two codes, the regions those of the two
      states. */
  lemma EnrichRecordSuccess(airports: seq<Airport>, regions: seq<Region>, rec: Record)
    requires EnrichRecord(airports, regions, rec).Success?
    ensures var out := EnrichRecord(airports, regions, rec).value;
      && Resolves(airports, rec, AIRPORT_FROM)
      && Resolves(airports, rec, AIRPORT_TO)
      && out.Keys == rec.Keys + ADDED
      && out - ADDED == rec - ADDED
      && StateOf(airports, rec[AIRPORT_FROM]) == Success(out[STATE_FROM])
      && StateOf(airports, rec[AIRPORT_TO]) == Success(out[STATE_TO])
      && RegionIn(regions, out[STATE_FROM]) == Success(out[REGION_FROM])
      && RegionIn(regions, out[STATE_TO]) == Success(out[REGION_TO])
  {
  }

  /** A record fails exactly when one of its four lookups fails, and the
      reported failure is the first one in the order of lines 65, 66, 68
      and 69. */
  lemma EnrichRecordFailure(airports: seq<Airport>, regions: seq<Region>, rec: Record)
    ensures AIRPORT_FROM !in rec ==>
      EnrichRecord(airports, regions, rec) == Failure(AirportFieldMissing(AIRPORT_FROM))
    ensures AIRPORT_FROM in rec && !Known(airports, rec[AIRPORT_FROM]) ==>
      EnrichRecord(airports, regions, rec) == Failure(AirportNotFound(rec[AIRPORT_FROM]))
    ensures Resolves(airports, rec, AIRPORT_FROM) && AIRPORT_TO !in rec ==>
      EnrichRecord(airports, regions, rec) == Failure(AirportFieldMissing(AIRPORT_TO))
    ensures (Resolves(airports, rec, AIRPORT_FROM) && AIRPORT_TO in rec
             && !Known(airports, rec[AIRPORT_TO])) ==>
      EnrichRecord(airports, regions, rec) == Failure(AirportNotFound(rec[AIRPORT_TO]))
    ensures Resolves(airports, rec, AIRPORT_FROM) && Resolves(airports, rec, AIRPORT_TO) ==>
      var from := StateOf(airports, rec[AIRPORT_FROM]).value;
      var to := StateOf(airports, rec[AIRPORT_TO]).value;
      && (from !in Covered(regions) ==>
            EnrichRecord(airports, regions, rec) == Failure(RegionNotFound(from)))
      && (from in Covered(regions) && to !in Covered(regions) ==>
            EnrichRecord(airports, regions, rec) == Failure(RegionNotFound(to)))
      && (from in Covered(regions) && to in Covered(regions) ==>
            EnrichRecord(airports, regions, rec).Success?)
  {
  }

  /** The loop body as a step of a `Batch` run. */
  function Step(airports: seq<Airport>, regions: seq<Region>): Record -> Result<Record, LookupError>
  {
    (rec: Record) => EnrichRecord(airports, regions, rec)
  }

  /** The whole loop: every flight enriched in order, or an abort at the
      first flight that cannot be, in which case nothing is written. */
  function Enrich(airports: seq<Airport>, regions: seq<Region>, flights: seq<Record>)
    : (r: Result<seq<Record>, Abort<LookupError>>)
    ensures IsRunOutcome(Step(airports, regions), flights, r)
    ensures r.Success? <==>
      forall i :: 0 <= i < |flights| ==> EnrichRecord(airports, regions, flights[i]).Success?
  {
    Run(Step(airports, regions), flights)
  }

  /** Lines 63-69 as written: a copy of the record receives the four fields
      one assignment at a time, each region looked up from the state just
      stored in the copy. */
  method EnrichOne(airports: seq<Airport>, regions: seq<Region>, flight: Record)
    returns (r: Result<Record, LookupError>)
    ensures r == EnrichRecord(airports, regions, flight)
  {
    var newDeets := flight;
    var stateFrom := StateOfField(airports, flight, AIRPORT_FROM);
    if stateFrom.Failure? {
      return Failure(stateFrom.error);
    }
    newDeets := newDeets[STATE_FROM := stateFrom.value];
    var stateTo := StateOfField(airports, flight, AIRPORT_TO);
    if stateTo.Failure? {
      return Failure(stateTo.error);
    }
    newDeets := newDeets[STATE_TO := stateTo.value];
    var regionFrom := RegionIn(regions, newDeets[STATE_FROM]);
    if regionFrom.Failure? {
      return Failure(regionFrom.error);
    }
    newDeets := newDeets[REGION_FROM := regionFrom.value];
    var regionTo := RegionIn(regions, newDeets[STATE_TO]);
    if regionTo.Failure? {
      return Failure(regionTo.error);
    }
    newDeets := newDeets[REGION_TO := regionTo.value];
    return Success(newDeets);
  }

  /** On a run that completes, output record `i` is flight `i` with the four
      derived fields added and nothing else changed. */
  lemma EnrichedFlight(airports: seq<Airport>, regions: seq<Region>, flights: seq<Record>, i: int)
    requires Enrich(airports, regions, flights).Success? && 0 <= i < |flights|
    ensures |Enrich(airports, regions, flights).value| == |flights|
    ensures var out := Enrich(airports, regions, flights).value[i];
      && out.Keys == flights[i].Keys + ADDED
      && out - ADDED == flights[i] - ADDED
      && StateOf(airports, flights[i][AIRPORT_FROM]) == Success(out[STATE_FROM])
      && StateOf(airports, flights[i][AIRPORT_TO]) == Success(out[STATE_TO])
      && RegionIn(regions, out[STATE_FROM]) == Success(out[REGION_FROM])
      && RegionIn(regions, out[STATE_TO]) == Success(out[REGION_TO])
  {
    assert Step(airports, regions)(flights[i]) == Success(Enrich(airports, regions, flights).value[i]);
    EnrichRecordSuccess(airports, regions, flights[i]);
  }

  /** An empty flight list enriches to an empty list. */
  lemma EmptyRun(airports: seq<Airport>, regions: seq<Region>)
    ensures Enrich(airports, regions, []) == Success([])
  {
  }

  /** A flight from JFK to LAX, given an airport table that places JFK in
      New York and LAX in California, gains StateFrom NY, StateTo CA,
      RegionFrom Northeast and RegionTo West under the fixed region table,
      and keeps its other fields. */
  lemma JfkToLax()
    ensures var airports := [Airport("JFK", "NY"), Airport("LAX", "CA")];
      var flight := map[AIRPORT_FROM := "JFK", AIRPORT_TO := "LAX", "Airline" := "AA"];
      Enrich(airports, REGIONS, [flight]) ==
        Success([flight[STATE_FROM := "NY"][STATE_TO := "CA"]
                       [REGION_FROM := "Northeast"][REGION_TO := "West"]])
  {
    var airports := [Airport("JFK", "NY"), Airport("LAX", "CA")];
    var flight := map[AIRPORT_FROM := "JFK", AIRPORT_TO := "LAX", "Airline" := "AA"];
    var expected := flight[STATE_FROM := "NY"][STATE_TO := "CA"]
                          [REGION_FROM := "Northeast"][REGION_TO := "West"];
    assert EnrichRecord(airports, REGIONS, flight) == Success(expected) by {
      assert StateOfField(airports, flight, AIRPORT_FROM) == Success("NY") by {
        assert IsFirstMatch(airports, HasIata("JFK"), 0);
      }
      assert StateOfField(airports, flight, AIRPORT_TO) == Success("CA") by {
        assert IsFirstMatch(airports, HasIata("LAX"), 1);
      }
      NotedPlacements();
    }
    assert IsRunOutcome(Step(airports, REGIONS), [flight], Success([expected]));
    OutcomeUnique(Step(airports, REGIONS), [flight], Success([expected]),
                  Enrich(airports, REGIONS, [flight]));
  }

  /** A flight whose origin code no airport carries aborts the run at that
      flight, naming the code; no output is produced. */
  lemma UnknownAirport(regions: seq<Region>)
    ensures var airports := [Airport("JFK", "NY"), Airport("LAX", "CA")];
      var flight := map[AIRPORT_FROM := "ZZZ", AIRPORT_TO := "LAX"];
      Enrich(airports, regions, [flight]) == Failure(Abort(0, AirportNotFound("ZZZ")))
  {
    var airports := [Airport("JFK", "NY"), Airport("LAX", "CA")];
    assert !Known(airports, "ZZZ");
  }
}
