/** The lookup primitive shared by both reference tables, and the ways a
    lookup can fail.

    Both `findStateByIata` and `findRegionByState` in filter.js call lodash
    `find`, which scans an array from index 0 and returns the first element
    that satisfies a predicate, or `undefined` when none does. Reading a
    property off that `undefined` throws and ends the run; here the throw is
    an explicit `LookupError`. */
module Lookups {
  import opened Wrappers

  /** Why a record could not be enriched. */
  datatype LookupError =
      /** The flight record has no such airport-code field, so `undefined`
          is looked up; no airport matches it and the run crashes at the
          same place as for an unknown code. */
    | AirportFieldMissing(field: string)
      /** No airport carries this IATA code. */
    | AirportNotFound(iata: string)
      /** No region lists this state code. */
    | RegionNotFound(state: string)

  /** `i` is the position of the first element of `s` satisfying `p`. */
  ghost predicate IsFirstMatch<T>(s: seq<T>, p: T -> bool, i: int)
  {
    && 0 <= i < |s|
    && p(s[i])
    && forall j :: 0 <= j < i ==> !p(s[j])
  }

  /** lodash `find`, reporting the position of the element it returns. */
  function FindIndex<T>(s: seq<T>, p: T -> bool): (r: Option<nat>)
    ensures r.Some? ==> IsFirstMatch(s, p, r.value)
    ensures r.None? <==> forall j :: 0 <= j < |s| ==> !p(s[j])
  {
    if |s| == 0 then None
    else if p(s[0]) then Some(0)
    else match FindIndex(s[1..], p)
      case None => None
      case Some(k) => Some(k + 1)
  }

  /** Elements after the first match are never consulted: appending any
      suffix leaves a successful `find` unchanged, and a `find` that fails on
      the prefix continues into the suffix with the positions shifted. */
  lemma {:induction false} FindIndexAppend<T>(a: seq<T>, b: seq<T>, p: T -> bool)
    ensures FindIndex(a, p).Some? ==> FindIndex(a + b, p) == FindIndex(a, p)
    ensures FindIndex(a, p).None? ==>
      FindIndex(a + b, p) == (match FindIndex(b, p)
                               case None => None
                               case Some(k) => Some(|a| + k))
  {
    if |a| == 0 {
      assert a + b == b;
    } else {
      assert (a + b)[1..] == a[1..] + b;
      FindIndexAppend(a[1..], b, p);
    }
  }
}
