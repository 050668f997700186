/** The airport index: `findStateByIata` in filter.js (lines 10-14).

    The airport table is the parsed `airports.json`; only the two attributes
    the lookup reads are kept. The table is an explicit parameter rather than
    module-level state. */
module Airports {
  import opened Wrappers
  import opened Lookups

  datatype Airport = Airport(iata: string, state: string)

  /** The lodash matcher `{iata: iata}`. */
  function HasIata(iata: string): Airport -> bool
  {
    (a: Airport) => a.iata == iata
  }

  /** Some airport of the table carries `iata`. */
  ghost predicate Known(airports: seq<Airport>, iata: string)
  {
    exists i :: 0 <= i < |airports| && airports[i].iata == iata
  }

  /** The state recorded on the first airport whose code is `iata`; an
      unknown code is the crash of destructuring `undefined`. */
  function StateOf(airports: seq<Airport>, iata: string): (r: Result<string, LookupError>)
    ensures r.Success? <==> Known(airports, iata)
    ensures r.Success? ==>
      exists i :: IsFirstMatch(airports, HasIata(iata), i) && r.value == airports[i].state
    ensures r.Failure? ==> r.error == AirportNotFound(iata)
  {
    match FindIndex(airports, HasIata(iata))
    case None => Failure(AirportNotFound(iata))
    case Some(i) => Success(airports[i].state)
  }

  /** A code-keyed index built so that the earliest airport with a given code
      wins: entries are inserted from the back of the table to the front. */
  function Index(airports: seq<Airport>): (m: map<string, string>)
    ensures forall c :: c in m <==> Known(airports, c)
  {
    if |airports| == 0 then map[]
    else Index(airports[1..])[airports[0].iata := airports[0].state]
  }

  /** The linear first-match scan and the code-keyed index agree on every
      code: same state where the code is known, failure exactly where it is
      not. */
  lemma {:induction false} StateOfMatchesIndex(airports: seq<Airport>, iata: string)
    ensures StateOf(airports, iata) ==
      if iata in Index(airports) then Success(Index(airports)[iata])
      else Failure(AirportNotFound(iata))
  {
    if |airports| > 0 && airports[0].iata != iata {
      StateOfMatchesIndex(airports[1..], iata);
      StateOfTail(airports, iata);
    }
  }

  /** Skipping a non-matching head does not change the result. */
  lemma StateOfTail(airports: seq<Airport>, iata: string)
    requires |airports| > 0 && airports[0].iata != iata
    ensures StateOf(airports, iata) == StateOf(airports[1..], iata)
  {
    assert FindIndex(airports, HasIata(iata)) ==
      match FindIndex(airports[1..], HasIata(iata))
      case None => None
      case Some(k) => Some(k + 1);
  }

  /** Later duplicates are never consulted: once a code is known in a prefix
      of the table, whatever follows does not affect its state; a code the
      prefix does not know is resolved by the rest alone. */
  lemma StateOfAppend(front: seq<Airport>, back: seq<Airport>, iata: string)
    ensures Known(front, iata) ==> StateOf(front + back, iata) == StateOf(front, iata)
    ensures !Known(front, iata) ==> StateOf(front + back, iata) == StateOf(back, iata)
  {
    FindIndexAppend(front, back, HasIata(iata));
    if FindIndex(front, HasIata(iata)).None? {
      match FindIndex(back, HasIata(iata))
      case None =>
      case Some(k) => assert (front + back)[|front| + k] == back[k];
    }
  }
}
