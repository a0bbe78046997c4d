/** The board's list of regions: the catalog with each entry marked spotted
    when some player of the session spotted it, sorted spotted first and by
    name within each group. */
module GameBoard {

  import opened Types
  import opened StateData

  /** `states.map(state => ({ ...state, spotted: global.includes(state.id) }))`. */
  function Annotate(statesList: seq<StateData>, globalSpottedStates: seq<RegionId>): (r: seq<StateData>)
    ensures |r| == |statesList|
    ensures forall i :: 0 <= i < |r| ==> r[i] == statesList[i].(spotted := statesList[i].id in globalSpottedStates)
  {
    seq(|statesList|, i requires 0 <= i < |statesList| =>
      statesList[i].(spotted := statesList[i].id in globalSpottedStates))
  }

  /** `sortedStates`: the annotated catalog, sorted by the same comparator
      as `sortStatesBySpotted`. */
  function SortedStates(globalSpottedStates: seq<RegionId>): seq<StateData>
  {
    SortStatesBySpotted(Annotate(States, globalSpottedStates))
  }

  /** `sortedStates` holds each catalog entry exactly once, marked spotted
      exactly when its id is in the global list and otherwise copied from the
      catalog, with spotted entries first and names ascending within each
      group. */
  lemma SortedStatesOutcome(globalSpottedStates: seq<RegionId>)
    ensures var r := SortedStates(globalSpottedStates);
      && |r| == |States|
      && IdsUnique(r)
      && (forall i :: 0 <= i < |r| ==> r[i].spotted == (r[i].id in globalSpottedStates))
      && (forall i :: 0 <= i < |r| ==> r[i].(spotted := false) in States)
      && (forall j :: 0 <= j < |States| ==> States[j].(spotted := States[j].id in globalSpottedStates) in r)
      && (forall i, j :: 0 <= i < j < |r| && r[j].spotted ==> r[i].spotted)
      && (forall i, j :: 0 <= i < j < |r| && r[i].spotted == r[j].spotted ==> NameLe(r[i].name, r[j].name))
  {
    var a := Annotate(States, globalSpottedStates);
    var r := SortedStates(globalSpottedStates);
    CatalogShape();
    CatalogIdsUnique();
    assert multiset(r) == multiset(a);
    assert |r| == |a| by {
      assert |multiset(r)| == |multiset(a)|;
    }
    assert IdsUnique(a) by {
      assert forall i :: 0 <= i < |a| ==> a[i].id == States[i].id;
    }
    IdsUniquePermutation(a, r);
    forall i | 0 <= i < |r|
      ensures r[i].spotted == (r[i].id in globalSpottedStates) && r[i].(spotted := false) in States
    {
      assert r[i] in multiset(a);
      var j :| 0 <= j < |a| && a[j] == r[i];
      assert r[i].(spotted := false) == States[j];
    }
    forall j | 0 <= j < |States| ensures a[j] in r {
      assert a[j] in multiset(r);
    }
  }
}
