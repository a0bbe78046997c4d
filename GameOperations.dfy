/** The claim engine of the multi-player session: toggling a region for the
    active player, with exclusive claims and a global list kept alongside the
    per-player lists, and starting a new game. */
module GameOperations {

  import opened Types
  import opened Lists
  import opened Roster
  import opened GameStateHook
  import StateData

  /** Some player other than the active one holds `stateId`. */
  predicate OtherPlayerHolds(players: seq<Player>, activePlayer: int, stateId: RegionId)
  {
    exists i :: 0 <= i < |players| && players[i].id != activePlayer && stateId in players[i].states
  }

  /** Every player with the active id gets `newStates` and a score equal to
      their number; the others are kept. */
  function UpdateActive(players: seq<Player>, activePlayer: int, newStates: seq<RegionId>): (r: seq<Player>)
    ensures |r| == |players|
    ensures forall i :: 0 <= i < |r| ==>
      r[i] == if players[i].id == activePlayer then players[i].(states := newStates, score := |newStates|)
              else players[i]
  {
    seq(|players|, i requires 0 <= i < |players| =>
      if players[i].id == activePlayer then players[i].(states := newStates, score := |newStates|)
      else players[i])
  }

  /** `handleToggleState`: the snapshot after the active player toggles
      region `stateId`. */
  function ToggleState(g: GameState, stateId: RegionId): GameState
  {
    var currentPlayer := FindPlayer(g.players, g.activePlayer);
    if currentPlayer.None? then g
    else
      var hasState := stateId in currentPlayer.value.states;
      if !hasState && stateId in g.globalSpottedStates then g
      else
        var newStates :=
          if hasState then Remove(currentPlayer.value.states, stateId)
          else currentPlayer.value.states + [stateId];
        var global :=
          if !hasState then g.globalSpottedStates + [stateId]
          else if OtherPlayerHolds(g.players, g.activePlayer, stateId) then g.globalSpottedStates
          else Remove(g.globalSpottedStates, stateId);
        g.(players := UpdateActive(g.players, g.activePlayer, newStates), globalSpottedStates := global)
  }

  /** The outcome of a toggle, case by case: no active player or a region
      another player already spotted changes nothing; otherwise the region
      is appended to (or filtered out of) the active player's list, whose
      score becomes the new list's length, every other player is kept, and
      the global list gains the region, or loses it unless another player
      still holds it. The game id and the active id never change. */
  lemma ToggleOutcome(g: GameState, stateId: RegionId, k: int)
    requires UniqueIds(g.players) && 0 <= k < |g.players| && g.players[k].id == g.activePlayer
    ensures var r := ToggleState(g, stateId);
      var p := g.players[k];
      && (stateId !in p.states && stateId in g.globalSpottedStates ==> r == g)
      && (stateId !in p.states && stateId !in g.globalSpottedStates ==>
            && r.globalSpottedStates == g.globalSpottedStates + [stateId]
            && r.players == g.players[k := p.(states := p.states + [stateId], score := |p.states| + 1)])
      && (stateId in p.states ==>
            && (forall y :: y in r.players[k].states <==> y in p.states && y != stateId)
            && r.players == g.players[k := p.(states := r.players[k].states, score := |r.players[k].states|)]
            && (forall y :: y in r.globalSpottedStates <==>
                  y in g.globalSpottedStates && (y != stateId || OtherPlayerHolds(g.players, g.activePlayer, stateId))))
      && r.activePlayer == g.activePlayer && r.currentGameId == g.currentGameId
  {
    var p := g.players[k];
    FindPlayerAt(g.players, k);
    var r := ToggleState(g, stateId);
    if stateId in p.states || stateId !in g.globalSpottedStates {
      var newStates := if stateId in p.states then Remove(p.states, stateId) else p.states + [stateId];
      var expected := g.players[k := p.(states := newStates, score := |newStates|)];
      assert r.players == expected by {
        forall i | 0 <= i < |g.players| ensures r.players[i] == expected[i] {
          if i != k { assert g.players[i].id != g.activePlayer; }
        }
      }
    }
  }

  /** Without a player holding the active id, a toggle changes nothing. */
  lemma ToggleWithoutActivePlayer(g: GameState, stateId: RegionId)
    requires !HasPlayer(g.players, g.activePlayer)
    ensures ToggleState(g, stateId) == g
  {
  }

  /** A claim of a region nobody holds, by the player at `k`, keeps the
      global list the duplicate-free union of disjoint claims. */
  lemma ClaimKeepsUnion(ps: seq<Player>, rs: seq<Player>, k: int, x: RegionId, global: seq<RegionId>)
    requires 0 <= k < |ps| && |rs| == |ps|
    requires forall i :: 0 <= i < |ps| && i != k ==> rs[i] == ps[i]
    requires rs[k].states == ps[k].states + [x]
    requires GlobalIsUnion(ps, global) && NoDup(global) && DisjointClaims(ps) && x !in global
    ensures GlobalIsUnion(rs, global + [x]) && NoDup(global + [x]) && DisjointClaims(rs)
  {
    forall y ensures y in global + [x] <==> Holds(rs, y) {
      if y == x { assert x in rs[k].states; }
      if y in global {
        var i :| 0 <= i < |ps| && y in ps[i].states;
        assert y in rs[i].states;
      }
      if Holds(rs, y) {
        var i :| 0 <= i < |rs| && y in rs[i].states;
        if y != x { assert y in ps[i].states; }
      }
    }
    forall i, j | 0 <= i < j < |global| + 1 ensures (global + [x])[i] != (global + [x])[j] {
      if j == |global| { assert (global + [x])[i] == global[i]; }
    }
    forall i, j, y | 0 <= i < |rs| && 0 <= j < |rs| && i != j && y in rs[i].states
      ensures y !in rs[j].states
    {
      if y == x {
        assert !Holds(ps, x);
        assert x !in ps[j].states && x !in ps[i].states;
      }
    }
  }

  /** Dropping a region from the list of the player at `k`, who alone holds
      it, and from the global list keeps the global list the union of
      disjoint claims. */
  lemma UnclaimKeepsUnion(ps: seq<Player>, rs: seq<Player>, k: int, x: RegionId, global: seq<RegionId>)
    requires 0 <= k < |ps| && |rs| == |ps|
    requires forall i :: 0 <= i < |ps| && i != k ==> rs[i] == ps[i]
    requires forall y :: y in rs[k].states <==> y in ps[k].states && y != x
    requires GlobalIsUnion(ps, global) && DisjointClaims(ps) && x in ps[k].states
    ensures GlobalIsUnion(rs, Remove(global, x)) && DisjointClaims(rs)
  {
    forall y ensures y in Remove(global, x) <==> Holds(rs, y) {
      if y in Remove(global, x) {
        var i :| 0 <= i < |ps| && y in ps[i].states;
        assert y in rs[i].states;
      }
      if Holds(rs, y) {
        var i :| 0 <= i < |rs| && y in rs[i].states;
        assert y in ps[i].states;
        assert y != x by {
          if i != k { assert x in ps[k].states; }
        }
      }
    }
    forall i, j, y | 0 <= i < |rs| && 0 <= j < |rs| && i != j && y in rs[i].states
      ensures y !in rs[j].states
    {
      assert y in ps[i].states;
    }
  }

  /** A toggle keeps the session invariant: the global list stays the
      duplicate-free union of the claims, claims stay disjoint, and the
      number of players, their ids and the active id stay as they were. */
  lemma TogglePreservesConsistent(g: GameState, stateId: RegionId)
    requires Consistent(g)
    ensures Consistent(ToggleState(g, stateId))
    ensures |ToggleState(g, stateId).players| == |g.players|
  {
    var k :| 0 <= k < |g.players| && g.players[k].id == g.activePlayer;
    ToggleOutcome(g, stateId, k);
    var r := ToggleState(g, stateId);
    var p := g.players[k];
    if stateId !in p.states && stateId in g.globalSpottedStates {
      return;
    }
    var ps := g.players;
    var rs := r.players;
    assert forall i :: 0 <= i < |ps| && i != k ==> rs[i] == ps[i];
    assert UniqueIds(rs) by {
      assert forall i :: 0 <= i < |ps| ==> rs[i].id == ps[i].id;
    }
    assert HasPlayer(rs, r.activePlayer) by { assert rs[k].id == r.activePlayer; }
    if stateId !in p.states {
      ClaimKeepsUnion(ps, rs, k, stateId, g.globalSpottedStates);
    } else {
      // With disjoint claims nobody else holds the region.
      assert !OtherPlayerHolds(ps, g.activePlayer, stateId) by {
        forall i | 0 <= i < |ps| && ps[i].id != g.activePlayer ensures stateId !in ps[i].states {
          assert i != k;
        }
      }
      UnclaimKeepsUnion(ps, rs, k, stateId, g.globalSpottedStates);
      assert r.globalSpottedStates == Remove(g.globalSpottedStates, stateId);
    }
  }

  /** In a consistent session, claiming a free region and unclaiming it
      again restores the whole snapshot, score included, when the active
      player's score was the length of their list. */
  lemma ClaimThenUnclaimRestores(g: GameState, stateId: RegionId, k: int)
    requires Consistent(g) && 0 <= k < |g.players| && g.players[k].id == g.activePlayer
    requires stateId !in g.globalSpottedStates
    requires g.players[k].score == |g.players[k].states|
    ensures ToggleState(ToggleState(g, stateId), stateId) == g
  {
    var p := g.players[k];
    assert !Holds(g.players, stateId);
    assert stateId !in p.states;
    var g1 := ToggleState(g, stateId);
    ToggleOutcome(g, stateId, k);
    assert g1.players[k].states == p.states + [stateId];
    assert UniqueIds(g1.players) by {
      assert forall i :: 0 <= i < |g.players| ==> g1.players[i].id == g.players[i].id;
    }
    ToggleOutcome(g1, stateId, k);
    var g2 := ToggleState(g1, stateId);
    RemoveAppended(p.states, stateId);
    RemoveAppended(g.globalSpottedStates, stateId);
    assert !OtherPlayerHolds(g1.players, g.activePlayer, stateId) by {
      forall i | 0 <= i < |g1.players| && g1.players[i].id != g.activePlayer
        ensures stateId !in g1.players[i].states
      {
        assert i != k && g1.players[i] == g.players[i];
      }
    }
    assert g2.players[k].states == p.states;
    assert g2.players == g.players;
  }

  /** A toggle scores the number of regions, not their catalog points: a
      player with no regions who spots Ontario scores 1, while the catalog
      score of Ontario is 2. */
  lemma ToggleScoresCount(g: GameState, k: int)
    requires UniqueIds(g.players) && 0 <= k < |g.players| && g.players[k].id == g.activePlayer
    requires g.players[k].states == [] && "ONT" !in g.globalSpottedStates
    ensures ToggleState(g, "ONT").players[k].score == 1
    ensures StateData.PointsOf("ONT") == 2
  {
    ToggleOutcome(g, "ONT", k);
    StateData.ProvinceWorthTwo();
  }

  /** `handleNewGame`: every player keeps id and name but loses all regions
      and score; the global list is emptied. */
  function NewGame(g: GameState): GameState
  {
    g.(players := seq(|g.players|, i requires 0 <= i < |g.players| =>
                          g.players[i].(states := [], score := 0)),
       globalSpottedStates := [])
  }

  /** A new game keeps the players, their ids, names and order, clears every
      claim and score and the global list, and keeps the session invariant. */
  lemma NewGameResets(g: GameState)
    ensures var r := NewGame(g);
      && |r.players| == |g.players|
      && (forall i :: 0 <= i < |g.players| ==>
            && r.players[i].id == g.players[i].id && r.players[i].name == g.players[i].name
            && r.players[i].databaseId == g.players[i].databaseId
            && r.players[i].states == [] && r.players[i].score == 0)
      && r.globalSpottedStates == []
      && r.activePlayer == g.activePlayer && r.currentGameId == g.currentGameId
      && (Consistent(g) ==> Consistent(r))
  {
    var r := NewGame(g);
    if Consistent(g) {
      var k :| 0 <= k < |g.players| && g.players[k].id == g.activePlayer;
      assert r.players[k].id == g.activePlayer;
      assert forall x :: !Holds(r.players, x);
    }
  }

  /** `handleToggleState` on the session's cells. */
  method HandleToggleState(s: Session, stateId: RegionId)
    modifies s
    ensures s.State() == ToggleState(old(s.State()), stateId)
  {
    var g := s.State();
    var currentPlayer := FindPlayer(s.players, s.activePlayer);
    if currentPlayer.None? { return; }
    var hasState := stateId in currentPlayer.value.states;
    if !hasState && stateId in s.globalSpottedStates {
      return;
    }
    var newStates :=
      if hasState then Remove(currentPlayer.value.states, stateId)
      else currentPlayer.value.states + [stateId];
    if hasState {
      if !OtherPlayerHolds(s.players, s.activePlayer, stateId) {
        s.globalSpottedStates := Remove(s.globalSpottedStates, stateId);
      }
    } else {
      s.globalSpottedStates := s.globalSpottedStates + [stateId];
    }
    s.players := UpdateActive(g.players, g.activePlayer, newStates);
  }

  /** `handleNewGame` on the session's cells. */
  method HandleNewGame(s: Session)
    modifies s
    ensures s.State() == NewGame(old(s.State()))
  {
    s.players := NewGame(s.State()).players;
    s.globalSpottedStates := [];
  }
}
