/** The single-player page: a copy of the catalog whose `spotted` flags the
    player flips, and the score shown for it. */
module IndexPage {

  import opened Types
  import opened StateData

  /** `statesList.map(...)` flipping `spotted` on the entries whose id is
      `stateId`. */
  function ToggleSpotted(statesList: seq<StateData>, stateId: RegionId): (r: seq<StateData>)
    ensures |r| == |statesList|
  {
    seq(|statesList|, i requires 0 <= i < |statesList| =>
      if statesList[i].id == stateId then statesList[i].(spotted := !statesList[i].spotted)
      else statesList[i])
  }

  /** The displayed score: `calculateScore` of the spotted entries. */
  function PageScore(statesList: seq<StateData>): (score: int)
    ensures 0 <= score <= 2 * |statesList|
  {
    CalculateScore(SpottedStates(statesList))
  }

  /** The page's `statesList` state cell. */
  class IndexPage {
    var statesList: seq<StateData>

    /** The page starts from the catalog. */
    constructor()
      ensures statesList == States
    {
      statesList := States;
    }

    /** `handleToggleState` on the page's cell. */
    method HandleToggleState(stateId: RegionId)
      modifies this
      ensures statesList == ToggleSpotted(old(statesList), stateId)
    {
      statesList := ToggleSpotted(statesList, stateId);
    }
  }

  /** A toggle flips `spotted` on the entries with the given id, changes no
      other field of them, and leaves every other entry as it was; an id no
      entry has leaves the list unchanged. */
  lemma ToggleSpottedOutcome(statesList: seq<StateData>, stateId: RegionId)
    ensures var r := ToggleSpotted(statesList, stateId);
      && (forall i :: 0 <= i < |r| && statesList[i].id != stateId ==> r[i] == statesList[i])
      && (forall i :: 0 <= i < |r| && statesList[i].id == stateId ==>
            r[i].spotted != statesList[i].spotted && r[i].(spotted := statesList[i].spotted) == statesList[i])
      && ((forall i :: 0 <= i < |statesList| ==> statesList[i].id != stateId) ==> r == statesList)
  {
  }

  /** Toggling the same id twice restores the list. */
  lemma ToggleTwiceRestores(statesList: seq<StateData>, stateId: RegionId)
    ensures ToggleSpotted(ToggleSpotted(statesList, stateId), stateId) == statesList
  {
    var r := ToggleSpotted(ToggleSpotted(statesList, stateId), stateId);
    assert forall i :: 0 <= i < |r| ==> r[i] == statesList[i];
  }

  /** With distinct ids, toggling the entry at `k` adds its points to the
      score when it was not spotted and takes them away when it was. */
  lemma ToggleScore(statesList: seq<StateData>, k: int)
    requires IdsUnique(statesList) && 0 <= k < |statesList|
    ensures var e := statesList[k];
      PageScore(ToggleSpotted(statesList, e.id))
        == PageScore(statesList) + (if e.spotted then -PointsOf(e.id) else PointsOf(e.id))
  {
    var e := statesList[k];
    var e' := e.(spotted := !e.spotted);
    var a := statesList[..k];
    var b := statesList[k + 1..];
    var r := ToggleSpotted(statesList, e.id);
    assert statesList == a + [e] + b;
    assert r == a + [e'] + b by {
      forall i | 0 <= i < |r| ensures r[i] == (a + [e'] + b)[i] {
        if i != k { assert statesList[i].id != e.id; }
      }
    }
    SpottedStatesAppend(a + [e], b);
    SpottedStatesAppend(a, [e]);
    SpottedStatesAppend(a + [e'], b);
    SpottedStatesAppend(a, [e']);
    assert [e][1..] == [] && [e'][1..] == [];
    assert SpottedStates([e]) == (if e.spotted then [e] else []);
    assert SpottedStates([e']) == (if e'.spotted then [e'] else []);
    var sa := SpottedStates(a);
    var sb := SpottedStates(b);
    CalculateScoreAppend(sa + SpottedStates([e]), sb);
    CalculateScoreAppend(sa, SpottedStates([e]));
    CalculateScoreAppend(sa + SpottedStates([e']), sb);
    CalculateScoreAppend(sa, SpottedStates([e']));
    CalculateScoreOfOne(e);
    CalculateScoreOfOne(e');
  }

  /** The page's first score, over the untouched catalog, is 0. */
  lemma InitialScore()
    ensures PageScore(States) == 0
  {
    CatalogShape();
    NoneSpotted(States);
  }
}
