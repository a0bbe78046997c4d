/** The region catalog and the pure helpers over it (src/utils/stateData.ts):
    score calculation, the spotted-first ordering, lookups and the spotted
    filter. */
module StateData {

  import opened Types
  import opened Lists

  /** One catalog region. `spotted` is only ever set on copies of an entry
      (the single-player list and the board's annotated copy). */
  datatype StateData = StateData(
    id: RegionId,
    name: string,
    abbreviation: string,
    spotted: bool,
    points: int)

  /** US states Alabama to Kentucky, 1 point each. */
  const UsStatesAlToKy: seq<StateData> := [
    StateData("AL", "Alabama", "AL", false, 1),
    StateData("AK", "Alaska", "AK", false, 1),
    StateData("AZ", "Arizona", "AZ", false, 1),
    StateData("AR", "Arkansas", "AR", false, 1),
    StateData("CA", "California", "CA", false, 1),
    StateData("CO", "Colorado", "CO", false, 1),
    StateData("CT", "Connecticut", "CT", false, 1),
    StateData("DE", "Delaware", "DE", false, 1),
    StateData("FL", "Florida", "FL", false, 1),
    StateData("GA", "Georgia", "GA", false, 1),
    StateData("HI", "Hawaii", "HI", false, 1),
    StateData("ID", "Idaho", "ID", false, 1),
    StateData("IL", "Illinois", "IL", false, 1),
    StateData("IN", "Indiana", "IN", false, 1),
    StateData("IA", "Iowa", "IA", false, 1),
    StateData("KS", "Kansas", "KS", false, 1),
    StateData("KY", "Kentucky", "KY", false, 1)
  ]

  /** US states Louisiana to North Dakota, 1 point each. */
  const UsStatesLaToNd: seq<StateData> := [
    StateData("LA", "Louisiana", "LA", false, 1),
    StateData("ME", "Maine", "ME", false, 1),
    StateData("MD", "Maryland", "MD", false, 1),
    StateData("MA", "Massachusetts", "MA", false, 1),
    StateData("MI", "Michigan", "MI", false, 1),
    StateData("MN", "Minnesota", "MN", false, 1),
    StateData("MS", "Mississippi", "MS", false, 1),
    StateData("MO", "Missouri", "MO", false, 1),
    StateData("MT", "Montana", "MT", false, 1),
    StateData("NE", "Nebraska", "NE", false, 1),
    StateData("NV", "Nevada", "NV", false, 1),
    StateData("NH", "New Hampshire", "NH", false, 1),
    StateData("NJ", "New Jersey", "NJ", false, 1),
    StateData("NM", "New Mexico", "NM", false, 1),
    StateData("NY", "New York", "NY", false, 1),
    StateData("NC", "North Carolina", "NC", false, 1),
    StateData("ND", "North Dakota", "ND", false, 1)
  ]

  /** US states Ohio to Wyoming and Washington DC, 1 point each. */
  const UsStatesOhToDc: seq<StateData> := [
    StateData("OH", "Ohio", "OH", false, 1),
    StateData("OK", "Oklahoma", "OK", false, 1),
    StateData("OR", "Oregon", "OR", false, 1),
    StateData("PA", "Pennsylvania", "PA", false, 1),
    StateData("RI", "Rhode Island", "RI", false, 1),
    StateData("SC", "South Carolina", "SC", false, 1),
    StateData("SD", "South Dakota", "SD", false, 1),
    StateData("TN", "Tennessee", "TN", false, 1),
    StateData("TX", "Texas", "TX", false, 1),
    StateData("UT", "Utah", "UT", false, 1),
    StateData("VT", "Vermont", "VT", false, 1),
    StateData("VA", "Virginia", "VA", false, 1),
    StateData("WA", "Washington", "WA", false, 1),
    StateData("WV", "West Virginia", "WV", false, 1),
    StateData("WI", "Wisconsin", "WI", false, 1),
    StateData("WY", "Wyoming", "WY", false, 1),
    StateData("DC", "Washington DC", "DC", false, 1)
  ]

  /** Canadian provinces and territories, 2 points each. */
  const CanadianProvinces: seq<StateData> := [
    StateData("ALB", "Alberta", "ALB", false, 2),
    StateData("BCO", "British Columbia", "BCO", false, 2),
    StateData("MAN", "Manitoba", "MAN", false, 2),
    StateData("NBR", "New Brunswick", "NBR", false, 2),
    StateData("NFL", "Newfoundland and Labrador", "NFL", false, 2),
    StateData("NSC", "Nova Scotia", "NSC", false, 2),
    StateData("ONT", "Ontario", "ONT", false, 2),
    StateData("PEI", "Prince Edward Island", "PEI", false, 2),
    StateData("QUE", "Quebec", "QUE", false, 2),
    StateData("SAS", "Saskatchewan", "SAS", false, 2),
    StateData("YUK", "Yukon", "YUK", false, 2),
    StateData("NWT", "Northwest Territories", "NWT", false, 2),
    StateData("NUN", "Nunavut", "NUN", false, 2)
  ]

  /** The catalog `states`, in the source's order: 50 US states and DC
      first, then the 13 Canadian provinces and territories. */
  const States: seq<StateData> :=
    UsStatesAlToKy + UsStatesLaToNd + UsStatesOhToDc + CanadianProvinces

  /** No two entries of `xs` share an id. */
  predicate IdsUnique(xs: seq<StateData>)
  {
    forall i, j :: 0 <= i < j < |xs| ==> xs[i].id != xs[j].id
  }

  /** Every entry of `xs` is worth `points`, has its abbreviation as id,
      and is not spotted. */
  predicate Uniform(xs: seq<StateData>, points: int)
  {
    forall i :: 0 <= i < |xs| ==> xs[i].points == points && xs[i].id == xs[i].abbreviation && !xs[i].spotted
  }

  // The literal facts behind CatalogShape, one block at a time.
  lemma Block1Shape() ensures |UsStatesAlToKy| == 17 && Uniform(UsStatesAlToKy, 1) {}
  lemma Block2Shape() ensures |UsStatesLaToNd| == 17 && Uniform(UsStatesLaToNd, 1) {}
  lemma Block3Shape() ensures |UsStatesOhToDc| == 17 && Uniform(UsStatesOhToDc, 1) {}
  lemma Block4Shape() ensures |CanadianProvinces| == 13 && Uniform(CanadianProvinces, 2) {}

  /** The catalog has 64 entries: the first 51 (50 states and DC) worth 1
      point, the last 13 worth 2; each id is its abbreviation, and no entry
      starts out spotted. */
  lemma CatalogShape()
    ensures |States| == 64
    ensures forall i :: 0 <= i < 51 ==> States[i].points == 1
    ensures forall i :: 51 <= i < 64 ==> States[i].points == 2
    ensures forall i :: 0 <= i < |States| ==> States[i].id == States[i].abbreviation
    ensures forall i :: 0 <= i < |States| ==> !States[i].spotted
  {
    Block1Shape(); Block2Shape(); Block3Shape(); Block4Shape();
    var us := UsStatesAlToKy + UsStatesLaToNd + UsStatesOhToDc;
    assert Uniform(us, 1) by {
      forall i | 0 <= i < |us| ensures us[i].points == 1 && us[i].id == us[i].abbreviation && !us[i].spotted {
        if i < 17 { assert us[i] == UsStatesAlToKy[i]; }
        else if i < 34 { assert us[i] == UsStatesLaToNd[i - 17]; }
        else { assert us[i] == UsStatesOhToDc[i - 34]; }
      }
    }
    assert States == us + CanadianProvinces;
    forall i | 0 <= i < 64
      ensures States[i].points == (if i < 51 then 1 else 2)
      ensures States[i].id == States[i].abbreviation && !States[i].spotted
    {
      if i < 51 { assert States[i] == us[i]; } else { assert States[i] == CanadianProvinces[i - 51]; }
    }
  }

  /** No id of `a` is an id of `b`. */
  predicate IdsDisjoint(a: seq<StateData>, b: seq<StateData>)
  {
    forall i, j :: 0 <= i < |a| && 0 <= j < |b| ==> a[i].id != b[j].id
  }

  /** Gluing two lists with unique ids and no id in common keeps ids unique. */
  lemma IdsUniqueConcat(a: seq<StateData>, b: seq<StateData>)
    requires IdsUnique(a) && IdsUnique(b) && IdsDisjoint(a, b)
    ensures IdsUnique(a + b)
  {
    forall i, j | 0 <= i < j < |a + b| ensures (a + b)[i].id != (a + b)[j].id {
      if j < |a| {
        assert (a + b)[i] == a[i] && (a + b)[j] == a[j];
      } else if i >= |a| {
        assert (a + b)[i] == b[i - |a|] && (a + b)[j] == b[j - |a|];
      } else {
        assert (a + b)[i] == a[i] && (a + b)[j] == b[j - |a|];
      }
    }
  }

  /** An id outside both of two lists is outside their concatenation. */
  lemma IdsDisjointConcat(a: seq<StateData>, b: seq<StateData>, c: seq<StateData>)
    requires IdsDisjoint(a, c) && IdsDisjoint(b, c)
    ensures IdsDisjoint(a + b, c)
  {
    forall i, j | 0 <= i < |a + b| && 0 <= j < |c| ensures (a + b)[i].id != c[j].id {
      if i < |a| { assert (a + b)[i] == a[i]; } else { assert (a + b)[i] == b[i - |a|]; }
    }
  }

  // The literal comparisons behind CatalogIdsUnique, one block of the
  // catalog or one pair of blocks at a time.
  lemma Block1Unique() ensures IdsUnique(UsStatesAlToKy) {}
  lemma Block2Unique() ensures IdsUnique(UsStatesLaToNd) {}
  lemma Block3Unique() ensures IdsUnique(UsStatesOhToDc) {}
  lemma Block4Unique() ensures IdsUnique(CanadianProvinces) {}
  lemma Blocks12Disjoint() ensures IdsDisjoint(UsStatesAlToKy, UsStatesLaToNd) {}
  lemma Blocks13Disjoint() ensures IdsDisjoint(UsStatesAlToKy, UsStatesOhToDc) {}
  lemma Blocks23Disjoint() ensures IdsDisjoint(UsStatesLaToNd, UsStatesOhToDc) {}
  lemma Blocks14Disjoint() ensures IdsDisjoint(UsStatesAlToKy, CanadianProvinces) {}
  lemma Blocks24Disjoint() ensures IdsDisjoint(UsStatesLaToNd, CanadianProvinces) {}
  lemma Blocks34Disjoint() ensures IdsDisjoint(UsStatesOhToDc, CanadianProvinces) {}

  /** Catalog ids are unique, so a lookup by id names at most one region. */
  lemma CatalogIdsUnique()
    ensures IdsUnique(States)
  {
    var a, b, c, d := UsStatesAlToKy, UsStatesLaToNd, UsStatesOhToDc, CanadianProvinces;
    Block1Unique(); Block2Unique(); Block3Unique(); Block4Unique();
    Blocks12Disjoint(); Blocks13Disjoint(); Blocks23Disjoint();
    Blocks14Disjoint(); Blocks24Disjoint(); Blocks34Disjoint();
    IdsUniqueConcat(a, b);
    IdsDisjointConcat(a, b, c);
    IdsUniqueConcat(a + b, c);
    IdsDisjointConcat(a, b, d);
    IdsDisjointConcat(a + b, c, d);
    IdsUniqueConcat(a + b + c, d);
  }

  /** With distinct ids, no entry occurs twice. */
  lemma {:induction false} IdsUniqueOnce(xs: seq<StateData>)
    requires IdsUnique(xs)
    ensures forall e :: multiset(xs)[e] <= 1
  {
    if xs != [] {
      assert xs == [xs[0]] + xs[1..];
      assert IdsUnique(xs[1..]) by {
        forall i, j | 0 <= i < j < |xs| - 1 ensures xs[1..][i].id != xs[1..][j].id {
          assert xs[1..][i] == xs[i + 1] && xs[1..][j] == xs[j + 1];
        }
      }
      IdsUniqueOnce(xs[1..]);
      assert xs[0] !in xs[1..] by {
        forall i | 0 <= i < |xs| - 1 ensures xs[1..][i] != xs[0] {
          assert xs[1..][i] == xs[i + 1];
        }
      }
    }
  }

  /** A list in which no entry occurs twice holds distinct entries at
      distinct indices. */
  lemma OnceDistinct(xs: seq<StateData>)
    requires forall e :: multiset(xs)[e] <= 1
    ensures forall i, j :: 0 <= i < j < |xs| ==> xs[i] != xs[j]
  {
    forall i, j | 0 <= i < j < |xs| ensures xs[i] != xs[j] {
      assert xs == xs[..j] + [xs[j]] + xs[j + 1..];
      assert xs[i] in xs[..j];
      assert multiset(xs)[xs[j]] >= multiset(xs[..j])[xs[j]] + 1;
    }
  }

  /** A rearrangement of a list with distinct ids has distinct ids. */
  lemma IdsUniquePermutation(a: seq<StateData>, b: seq<StateData>)
    requires multiset(a) == multiset(b) && IdsUnique(a)
    ensures IdsUnique(b)
  {
    IdsUniqueOnce(a);
    OnceDistinct(b);
    forall i, j | 0 <= i < j < |b| ensures b[i].id != b[j].id {
      assert b[i] in multiset(a) && b[j] in multiset(a);
      var p :| 0 <= p < |a| && a[p] == b[i];
      var q :| 0 <= q < |a| && a[q] == b[j];
      assert p != q;
    }
  }

  /** `xs.find(s => s.id === id)`: the first entry with that id. */
  function FindById(xs: seq<StateData>, id: RegionId): (r: Option<StateData>)
    ensures r.None? <==> forall i :: 0 <= i < |xs| ==> xs[i].id != id
    ensures r.Some? ==> exists k :: 0 <= k < |xs| && xs[k] == r.value && r.value.id == id
                                    && forall j :: 0 <= j < k ==> xs[j].id != id
  {
    Find(xs, (s: StateData) => s.id == id)
  }

  /** `findStateByAbbreviation`: the first catalog entry with that
      abbreviation, or none when no entry has it. */
  function FindStateByAbbreviation(abbreviation: string): (r: Option<StateData>)
    ensures r.None? <==> forall i :: 0 <= i < |States| ==> States[i].abbreviation != abbreviation
    ensures r.Some? ==> exists k :: 0 <= k < |States| && States[k] == r.value
                                    && r.value.abbreviation == abbreviation
                                    && forall j :: 0 <= j < k ==> States[j].abbreviation != abbreviation
  {
    FindByAbbreviation(States, abbreviation)
  }

  /** `xs.find(state => state.abbreviation === abbreviation)`. */
  function FindByAbbreviation(xs: seq<StateData>, abbreviation: string): (r: Option<StateData>)
    ensures r.None? <==> forall i :: 0 <= i < |xs| ==> xs[i].abbreviation != abbreviation
    ensures r.Some? ==> exists k :: 0 <= k < |xs| && xs[k] == r.value
                                    && r.value.abbreviation == abbreviation
                                    && forall j :: 0 <= j < k ==> xs[j].abbreviation != abbreviation
  {
    Find(xs, (s: StateData) => s.abbreviation == abbreviation)
  }

  /** What one spotted region adds to a score: `stateData?.points || 1`,
      its catalog points, or 1 for an id the catalog does not have. */
  function PointsOf(id: RegionId): (p: int)
    ensures p == 1 || p == 2
    ensures (forall i :: 0 <= i < |States| ==> States[i].id != id) ==> p == 1
    ensures forall i :: 0 <= i < |States| && States[i].id == id ==> p == States[i].points
  {
    CatalogShape();
    CatalogIdsUnique();
    var found := FindById(States, id);
    if found.Some? && found.value.points != 0 then found.value.points else 1
  }

  /** `calculateScore`: the points of the given entries, summed from the
      left as `reduce` does. */
  function CalculateScore(spottedStates: seq<StateData>): (score: int)
    ensures |spottedStates| <= score <= 2 * |spottedStates|
  {
    if spottedStates == [] then 0
    else
      CalculateScore(spottedStates[..|spottedStates| - 1])
      + PointsOf(spottedStates[|spottedStates| - 1].id)
  }

  /** The score of two lists glued together is the sum of their scores. */
  lemma {:induction false} CalculateScoreAppend(a: seq<StateData>, b: seq<StateData>)
    ensures CalculateScore(a + b) == CalculateScore(a) + CalculateScore(b)
  {
    if b == [] {
      assert a + b == a;
    } else {
      var b' := b[..|b| - 1];
      assert (a + b)[..|a + b| - 1] == a + b';
      CalculateScoreAppend(a, b');
    }
  }

  /** The score of a one-entry list is that entry's points. */
  lemma CalculateScoreOfOne(e: StateData)
    ensures CalculateScore([e]) == PointsOf(e.id)
  {
    assert [e][..0] == [];
  }

  /** Ontario is worth 2 points and California 1. */
  lemma ProvinceWorthTwo()
    ensures PointsOf("ONT") == 2 && PointsOf("CA") == 1
  {
    assert States[57].id == "ONT" && States[57].points == 2;
    assert States[4].id == "CA" && States[4].points == 1;
  }

  /** `a.localeCompare(b) <= 0`, modelled as lexicographic order on
      character codes. */
  predicate NameLe(a: string, b: string)
    decreases |a|
  {
    a == [] || (b != [] && (a[0] < b[0] || (a[0] == b[0] && NameLe(a[1..], b[1..]))))
  }

  /** Any two names are ordered one way or the other. */
  lemma {:induction false} NameLeTotal(a: string, b: string)
    ensures NameLe(a, b) || NameLe(b, a)
    decreases |a|
  {
    if a != [] && b != [] && a[0] == b[0] {
      NameLeTotal(a[1..], b[1..]);
    }
  }

  /** The name order is transitive. */
  lemma {:induction false} NameLeTransitive(a: string, b: string, c: string)
    requires NameLe(a, b) && NameLe(b, c)
    ensures NameLe(a, c)
    decreases |a|
  {
    if a != [] && b != [] && c != [] && a[0] == b[0] && b[0] == c[0] {
      NameLeTransitive(a[1..], b[1..], c[1..]);
    }
  }

  /** The sort comparator of `sortStatesBySpotted` says `a` may stay before
      `b`: spotted before unspotted, then by name. */
  predicate Precedes(a: StateData, b: StateData)
  {
    (a.spotted && !b.spotted) || (a.spotted == b.spotted && NameLe(a.name, b.name))
  }

  /** Every entry may stay before every later one. */
  predicate SortedBySpotted(xs: seq<StateData>)
  {
    forall i, j :: 0 <= i < j < |xs| ==> Precedes(xs[i], xs[j])
  }

  /** A sorted list stays sorted when an entry that may precede all of it
      is put in front. */
  lemma SortedCons(x: StateData, xs: seq<StateData>)
    requires SortedBySpotted(xs)
    requires forall y :: y in xs ==> Precedes(x, y)
    ensures SortedBySpotted([x] + xs)
  {
    forall i, j | 0 <= i < j < |[x] + xs| ensures Precedes(([x] + xs)[i], ([x] + xs)[j]) {
      assert ([x] + xs)[j] == xs[j - 1];
      if i > 0 { assert ([x] + xs)[i] == xs[i - 1]; }
    }
  }

  /** The tail of a sorted list is sorted, and its head may precede it all. */
  lemma SortedTail(xs: seq<StateData>)
    requires SortedBySpotted(xs) && xs != []
    ensures SortedBySpotted(xs[1..])
    ensures forall y :: y in xs ==> Precedes(xs[0], y)
  {
    forall i, j | 0 <= i < j < |xs[1..]| ensures Precedes(xs[1..][i], xs[1..][j]) {
      assert xs[1..][i] == xs[i + 1] && xs[1..][j] == xs[j + 1];
    }
    forall y | y in xs ensures Precedes(xs[0], y) {
      var k :| 0 <= k < |xs| && xs[k] == y;
      if k == 0 { NameLeTotal(y.name, y.name); }
    }
  }

  /** Places `x` before the first entry it may precede, in an already sorted
      list; one step of the stable sort. */
  function Insert(x: StateData, xs: seq<StateData>): (r: seq<StateData>)
    requires SortedBySpotted(xs)
    ensures multiset(r) == multiset(xs) + multiset{x}
    ensures SortedBySpotted(r)
  {
    if xs == [] then [x]
    else
      SortedTail(xs);
      if Precedes(x, xs[0]) then
        assert forall y :: y in xs ==> Precedes(x, y) by {
          forall y | y in xs ensures Precedes(x, y) {
            if y != xs[0] { PrecedesTransitive(x, xs[0], y); }
          }
        }
        SortedCons(x, xs);
        [x] + xs
      else
        var rest := Insert(x, xs[1..]);
        assert xs == [xs[0]] + xs[1..];
        assert forall y :: y in rest ==> Precedes(xs[0], y) by {
          PrecedesTotal(x, xs[0]);
          forall y | y in rest ensures Precedes(xs[0], y) {
            assert y in multiset(rest);
            assert y == x || y in multiset(xs[1..]);
          }
        }
        SortedCons(xs[0], rest);
        [xs[0]] + rest
  }

  lemma PrecedesTotal(a: StateData, b: StateData)
    ensures Precedes(a, b) || Precedes(b, a)
  {
    NameLeTotal(a.name, b.name);
  }

  lemma PrecedesTransitive(a: StateData, b: StateData, c: StateData)
    requires Precedes(a, b) && Precedes(b, c)
    ensures Precedes(a, c)
  {
    if a.spotted == b.spotted == c.spotted {
      NameLeTransitive(a.name, b.name, c.name);
    }
  }

  /** `sortStatesBySpotted`: a sorted copy of the list (the argument itself
      is a value and stays as it was). The result is a permutation of the
      input in which every spotted entry comes before every unspotted one
      and names ascend within each group. */
  function SortStatesBySpotted(statesList: seq<StateData>): (r: seq<StateData>)
    ensures multiset(r) == multiset(statesList)
    ensures SortedBySpotted(r)
    ensures forall i, j :: 0 <= i < j < |r| && r[j].spotted ==> r[i].spotted
    ensures forall i, j :: 0 <= i < j < |r| && r[i].spotted == r[j].spotted ==> NameLe(r[i].name, r[j].name)
  {
    if statesList == [] then []
    else
      assert statesList == [statesList[0]] + statesList[1..];
      Insert(statesList[0], SortStatesBySpotted(statesList[1..]))
  }

  /** `xs.filter(state => state.spotted)`. */
  function SpottedStates(xs: seq<StateData>): (r: seq<StateData>)
    ensures |r| <= |xs|
    ensures forall i :: 0 <= i < |r| ==> r[i].spotted && r[i] in xs
  {
    if xs == [] then []
    else if xs[0].spotted then [xs[0]] + SpottedStates(xs[1..]) else SpottedStates(xs[1..])
  }

  /** The filter keeps each spotted entry as often as it occurs in `xs`,
      and nothing else. */
  lemma {:induction false} SpottedStatesCounts(xs: seq<StateData>)
    ensures forall e :: multiset(SpottedStates(xs))[e] == if e.spotted then multiset(xs)[e] else 0
  {
    if xs != [] {
      assert xs == [xs[0]] + xs[1..];
      SpottedStatesCounts(xs[1..]);
    }
  }

  /** Filtering a concatenation filters each part, in order. */
  lemma {:induction false} SpottedStatesAppend(a: seq<StateData>, b: seq<StateData>)
    ensures SpottedStates(a + b) == SpottedStates(a) + SpottedStates(b)
  {
    if a != [] {
      assert (a + b)[0] == a[0] && (a + b)[1..] == a[1..] + b;
      SpottedStatesAppend(a[1..], b);
    } else {
      assert a + b == b;
    }
  }

  /** A list with no spotted entry filters to nothing. */
  lemma {:induction false} NoneSpotted(xs: seq<StateData>)
    requires forall i :: 0 <= i < |xs| ==> !xs[i].spotted
    ensures SpottedStates(xs) == []
  {
    if xs != [] {
      NoneSpotted(xs[1..]);
    }
  }

  /** `getSpottedStates`: the catalog entries marked spotted. The catalog
      itself never has one, so the result is empty. */
  function GetSpottedStates(): (r: seq<StateData>)
    ensures r == []
  {
    CatalogShape();
    NoneSpotted(States);
    SpottedStates(States)
  }
}
