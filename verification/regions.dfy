/** The region index: the `REGIONS` table and `findRegionByState` in
    filter.js (lines 16-51). */
module Regions {
  import opened Wrappers
  import opened Lookups

  datatype Region = Region(name: string, states: seq<string>)

  const WEST: seq<string> :=
    ["WA", "MT", "OR", "ID", "WY", "NV", "UT", "CO", "CA", "AK", "HI"]
  const SOUTHWEST: seq<string> :=
    ["AZ", "NM", "OK", "TX"]
  const MIDWEST: seq<string> :=
    ["ND", "MN", "SD", "WI", "NE", "IA", "KS", "MO", "IL", "IN", "MI", "OH"]
  const SOUTHEAST: seq<string> :=
    ["AR", "TN", "KY", "WV", "VA", "NC", "SC", "FL", "GA", "AL", "MS", "LA", "PR", "VI"]
  const NORTHEAST: seq<string> :=
    ["ME", "VT", "NH", "MA", "RI", "CT", "NY", "PA", "NJ", "MD", "DE", "DC"]

  /** The five regions in declaration order. Alaska and Hawaii are placed in
      the West, Puerto Rico and the US Virgin Islands in the Southeast, and
      the District of Columbia in the Northeast. */
  const REGIONS: seq<Region> := [
    Region("West", WEST),
    Region("Southwest", SOUTHWEST),
    Region("Midwest", MIDWEST),
    Region("Southeast", SOUTHEAST),
    Region("Northeast", NORTHEAST)
  ]

  /** The fifty states, by postal code in alphabetical order, ten to a
      row: an independent reference against which the table is checked. */
  const STATES: seq<string> :=
    ["AK", "AL", "AR", "AZ", "CA", "CO", "CT", "DE", "FL", "GA"] +
    ["HI", "IA", "ID", "IL", "IN", "KS", "KY", "LA", "MA", "MD"] +
    ["ME", "MI", "MN", "MO", "MS", "MT", "NC", "ND", "NE", "NH"] +
    ["NJ", "NM", "NV", "NY", "OH", "OK", "OR", "PA", "RI", "SC"] +
    ["SD", "TN", "TX", "UT", "VA", "VT", "WA", "WI", "WV", "WY"]

  /** The district and the two territories the table also covers. */
  const OTHER_AREAS: seq<string> := ["DC", "PR", "VI"]

  /** The codes a list holds. */
  ghost function Elements(s: seq<string>): set<string>
  {
    set c | c in s
  }

  /** The `obj.states.includes(stateCode)` callback. */
  function Lists(code: string): Region -> bool
  {
    (r: Region) => code in r.states
  }

  /** Every code listed somewhere in `table`. */
  ghost function Covered(table: seq<Region>): set<string>
  {
    set i, c | 0 <= i < |table| && c in table[i].states :: c
  }

  /** The name of the first region of `table`, in table order, whose list
      contains `code`; no such region is the crash of destructuring
      `undefined`. */
  function RegionIn(table: seq<Region>, code: string): (r: Result<string, LookupError>)
    ensures r.Success? <==> code in Covered(table)
    ensures r.Success? ==>
      exists i :: IsFirstMatch(table, Lists(code), i) && r.value == table[i].name
    ensures r.Failure? ==> r.error == RegionNotFound(code)
  {
    match FindIndex(table, Lists(code))
    case None => Failure(RegionNotFound(code))
    case Some(i) => Success(table[i].name)
  }

  /** `findRegionByState`: `RegionIn` over the fixed table. It succeeds
      exactly on the fifty states, DC, PR and VI, and since no code is
      listed twice, the first match is the one region listing the code. */
  function RegionOf(code: string): (r: Result<string, LookupError>)
    ensures r.Success? <==> code in STATES || code in OTHER_AREAS
    ensures r.Failure? ==> r.error == RegionNotFound(code)
    ensures forall i :: 0 <= i < |REGIONS| && code in REGIONS[i].states ==>
      r == Success(REGIONS[i].name)
  {
    TableCoversStatesAndAreas();
    TableIsPartition();
    RegionIn(REGIONS, code)
  }

  ghost predicate NoDuplicates(s: seq<string>)
  {
    forall i, j :: 0 <= i < j < |s| ==> s[i] != s[j]
  }

  /** No two regions list the same code. */
  ghost predicate Disjoint(table: seq<Region>)
  {
    forall i, j, c :: 0 <= i < j < |table| && c in table[i].states ==> c !in table[j].states
  }

  /** Every code is listed at most once in the whole table. */
  ghost predicate Partition(table: seq<Region>)
  {
    && Disjoint(table)
    && forall i :: 0 <= i < |table| ==> NoDuplicates(table[i].states)
  }

  /** The number of entries over all of the table's lists. */
  function TotalListed(table: seq<Region>): nat
  {
    if |table| == 0 then 0 else |table[0].states| + TotalListed(table[1..])
  }

  /** A table listing no code twice covers as many codes as it has entries. */
  lemma {:induction false} PartitionSize(table: seq<Region>)
    requires Partition(table)
    ensures |Covered(table)| == TotalListed(table)
  {
    if |table| > 0 {
      CoveredSplit(table);
      DistinctSize(table[0].states);
      assert Partition(table[1..]) by {
        forall i | 0 <= i < |table[1..]| ensures NoDuplicates(table[1..][i].states) {
          assert table[1..][i] == table[i + 1];
        }
      }
      PartitionSize(table[1..]);
    }
  }

  /** The codes of a table are those of its first region plus those of the
      rest, and under `Disjoint` the two parts share none. */
  lemma CoveredSplit(table: seq<Region>)
    requires |table| > 0
    ensures Covered(table) == Elements(table[0].states) + Covered(table[1..])
    ensures Disjoint(table) ==> Elements(table[0].states) !! Covered(table[1..])
  {
    var rest := table[1..];
    forall c | c in Covered(table) ensures c in table[0].states || c in Covered(rest) {
      var i :| 0 <= i < |table| && c in table[i].states;
      if i > 0 {
        assert rest[i - 1] == table[i];
      }
    }
    forall c | c in Covered(rest) ensures c in Covered(table) && (Disjoint(table) ==> c !in table[0].states) {
      var i :| 0 <= i < |rest| && c in rest[i].states;
      assert rest[i] == table[i + 1];
    }
  }

  /** A list without duplicates has as many elements as entries. */
  lemma {:induction false} DistinctSize(s: seq<string>)
    requires NoDuplicates(s)
    ensures |Elements(s)| == |s|
  {
    if |s| > 0 {
      assert Elements(s) == {s[0]} + Elements(s[1..]);
      assert s[0] !in s[1..] by {
        forall k | 0 <= k < |s[1..]| ensures s[1..][k] != s[0] {
          assert s[1..][k] == s[k + 1];
        }
      }
      DistinctSize(s[1..]);
    }
  }

  lemma TableIsPartition()
    ensures Partition(REGIONS)
  {
    ListsHaveNoDuplicates();
    WestDisjoint();
    SouthwestDisjoint();
    MidwestDisjoint();
    SoutheastDisjoint();
  }

  lemma ListsHaveNoDuplicates()
    ensures NoDuplicates(WEST) && NoDuplicates(SOUTHWEST) && NoDuplicates(MIDWEST)
    ensures NoDuplicates(SOUTHEAST) && NoDuplicates(NORTHEAST)
  {
  }

  lemma WestDisjoint()
    ensures forall c :: c in WEST ==>
      c !in SOUTHWEST && c !in MIDWEST && c !in SOUTHEAST && c !in NORTHEAST
  {
  }

  lemma SouthwestDisjoint()
    ensures forall c :: c in SOUTHWEST ==> c !in MIDWEST && c !in SOUTHEAST && c !in NORTHEAST
  {
  }

  lemma MidwestDisjoint()
    ensures forall c :: c in MIDWEST ==> c !in SOUTHEAST && c !in NORTHEAST
  {
  }

  lemma SoutheastDisjoint()
    ensures forall c :: c in SOUTHEAST ==> c !in NORTHEAST
  {
  }

  /** A list holds at most as many codes as it has entries. */
  lemma {:induction false} ElementsBound(s: seq<string>)
    ensures |Elements(s)| <= |s|
  {
    if |s| > 0 {
      assert Elements(s) == {s[0]} + Elements(s[1..]);
      ElementsBound(s[1..]);
    }
  }

  /** Every code of the table is a state or one of the other areas. */
  lemma TableWithinStatesAndAreas()
    ensures Covered(REGIONS) <= Elements(STATES) + Elements(OTHER_AREAS)
  {
    forall c | c in Covered(REGIONS) ensures c in STATES || c in OTHER_AREAS {
      var i :| 0 <= i < |REGIONS| && c in REGIONS[i].states;
      if i == 0 {
        WestWithin(c);
      } else if i == 1 {
        SouthwestWithin(c);
      } else if i == 2 {
        MidwestWithin(c);
      } else if i == 3 {
        SoutheastWithin(c);
      } else {
        NortheastWithin(c);
      }
    }
  }

  lemma WestWithin(c: string)
    requires c in WEST
    ensures c in STATES
  {
  }

  lemma SouthwestWithin(c: string)
    requires c in SOUTHWEST
    ensures c in STATES
  {
  }

  lemma MidwestWithin(c: string)
    requires c in MIDWEST
    ensures c in STATES
  {
  }

  lemma SoutheastWithin(c: string)
    requires c in SOUTHEAST
    ensures c in STATES || c in OTHER_AREAS
  {
  }

  lemma NortheastWithin(c: string)
    requires c in NORTHEAST
    ensures c in STATES || c in OTHER_AREAS
  {
  }

  /** The table lists 53 codes, no code twice, and they are exactly the
      fifty states, DC, PR and VI; the reference lists themselves hold no
      code twice. Counting does the work: 53 distinct codes inside 53
      reference entries leave no room for a gap or a repeat. */
  lemma TableCoversStatesAndAreas()
    ensures Covered(REGIONS) == Elements(STATES) + Elements(OTHER_AREAS)
    ensures |Covered(REGIONS)| == 53
    ensures |Elements(STATES)| == 50 && |Elements(OTHER_AREAS)| == 3
  {
    TableIsPartition();
    PartitionSize(REGIONS);
    TableEntries();
    TableWithinStatesAndAreas();
    ElementsBound(STATES);
    ElementsBound(OTHER_AREAS);
    StatesAreNotOtherAreas();
    UnionFilled(Covered(REGIONS), Elements(STATES), Elements(OTHER_AREAS), 50, 3);
  }

  /** A set of `m + n` codes inside the union of two non-overlapping sets
      of at most `m` and at most `n` codes is that whole union, and both
      parts are full. */
  lemma UnionFilled(covered: set<string>, a: set<string>, b: set<string>, m: nat, n: nat)
    requires covered <= a + b && a !! b
    requires |a| <= m && |b| <= n && |covered| == m + n
    ensures covered == a + b && |a| == m && |b| == n
  {
    assert |a + b| == |a| + |b|;
    SubsetOfNoLarger(covered, a + b);
  }

  lemma TableEntries()
    ensures TotalListed(REGIONS) == 53
  {
    var t := REGIONS;
    assert t[4..][1..] == [];
    assert t[3..][1..] == t[4..];
    assert t[2..][1..] == t[3..];
    assert t[1..][1..] == t[2..];
    assert TotalListed(t[4..]) == 12;
    assert TotalListed(t[3..]) == 26;
    assert TotalListed(t[2..]) == 38;
    assert TotalListed(t[1..]) == 42;
  }

  lemma StatesAreNotOtherAreas()
    ensures Elements(STATES) !! Elements(OTHER_AREAS)
  {
  }

  /** A subset at least as large as its superset is the whole superset. */
  lemma SubsetOfNoLarger(a: set<string>, b: set<string>)
    requires a <= b && |b| <= |a|
    ensures a == b
  {
    assert b == a + (b - a);
    assert |b - a| == 0;
  }

  /** The region names are pairwise different, so a code's region name
      identifies its region. */
  lemma NamesDistinct()
    ensures forall i, j :: 0 <= i < j < |REGIONS| ==> REGIONS[i].name != REGIONS[j].name
  {
  }

  /** The placements the table's comment calls out, and two ordinary ones. */
  lemma NotedPlacements()
    ensures RegionOf("AK") == Success("West") && RegionOf("HI") == Success("West")
    ensures RegionOf("PR") == Success("Southeast") && RegionOf("VI") == Success("Southeast")
    ensures RegionOf("DC") == Success("Northeast")
    ensures RegionOf("NY") == Success("Northeast") && RegionOf("CA") == Success("West")
  {
    assert "AK" in REGIONS[0].states && "HI" in REGIONS[0].states && "CA" in REGIONS[0].states;
    assert "PR" in REGIONS[3].states && "VI" in REGIONS[3].states;
    assert "DC" in REGIONS[4].states && "NY" in REGIONS[4].states;
  }
}
