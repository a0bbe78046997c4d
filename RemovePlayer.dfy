/** `handleRemovePlayer` of the player-management hook that falls back to
    local removal, and its `removePlayerLocally` helper. */
module RemovePlayer {

  import opened Types
  import opened Lists
  import opened Roster
  import opened GameStateHook

  /** The snapshot after `handleRemovePlayer(playerId)`; `delete` answers
      the remote delete. */
  function RemovePlayer(g: GameState, playerId: int, delete: WriteReply): GameState
  {
    if |g.players| <= 1 then g
    else
      var playerToRemove := FindPlayer(g.players, playerId);
      if playerToRemove.None? then g
      else if IsLocalGame(g.currentGameId) || !Truthy(playerToRemove.value.databaseId) then
        RemovePlayerLocally(g, playerToRemove, playerId)
      else if delete.Written? then RemovePlayerLocally(g, playerToRemove, playerId)
      else g
  }

  /** One player or fewer, or an id no player has: nothing changes. */
  lemma RemoveGuards(g: GameState, playerId: int, delete: WriteReply)
    requires |g.players| <= 1 || !HasPlayer(g.players, playerId)
    ensures RemovePlayer(g, playerId, delete) == g
  {
  }

  /** Removing the player at `k`: a failed or thrown delete of a stored
      player changes nothing; otherwise (a local game, a player without a
      store key, or a successful delete) the player is dropped with the
      rest kept in order, the regions they held leave the global list, the
      active id falls back to the first remaining player if it was theirs,
      and a consistent session stays consistent. */
  lemma RemoveOutcome(g: GameState, k: int, delete: WriteReply)
    requires UniqueIds(g.players) && |g.players| >= 2 && 0 <= k < |g.players|
    ensures var p := g.players[k];
      var r := RemovePlayer(g, p.id, delete);
      && (!IsLocalGame(g.currentGameId) && Truthy(p.databaseId) && !delete.Written? ==> r == g)
      && (IsLocalGame(g.currentGameId) || !Truthy(p.databaseId) || delete.Written? ==>
            && r.players == g.players[..k] + g.players[k + 1..]
            && (forall y :: y in r.globalSpottedStates <==> y in g.globalSpottedStates && y !in p.states)
            && r.activePlayer == (if g.activePlayer == p.id then r.players[0].id else g.activePlayer)
            && r.currentGameId == g.currentGameId
            && (Consistent(g) ==> Consistent(r)))
  {
    var p := g.players[k];
    FindPlayerAt(g.players, k);
    WithoutPlayerAt(g.players, k);
    if Consistent(g) {
      RemoveKeepsConsistent(g, k);
    }
  }

  /** `removePlayerLocally` on the session's cells: the global list, then
      the players, then the active id. */
  method RemoveLocally(s: Session, playerToRemove: Option<Player>, playerId: int)
    modifies s
    ensures s.State() == RemovePlayerLocally(old(s.State()), playerToRemove, playerId)
  {
    if playerToRemove.Some? {
      s.globalSpottedStates := RemoveAll(s.globalSpottedStates, playerToRemove.value.states);
    }
    var updatedPlayers := WithoutPlayer(s.players, playerId);
    s.players := updatedPlayers;
    if s.activePlayer == playerId && |updatedPlayers| > 0 {
      s.activePlayer := updatedPlayers[0].id;
    }
  }

  /** `handleRemovePlayer` on the session's cells. */
  method HandleRemovePlayer(s: Session, playerId: int, delete: WriteReply)
    modifies s
    ensures s.State() == RemovePlayer(old(s.State()), playerId, delete)
  {
    if |s.players| <= 1 {
      return;
    }
    var playerToRemove := FindPlayer(s.players, playerId);
    if playerToRemove.None? {
      return;
    }
    if IsLocalGame(s.currentGameId) || !Truthy(playerToRemove.value.databaseId) {
      RemoveLocally(s, playerToRemove, playerId);
      return;
    }
    if delete.Written? {
      RemoveLocally(s, playerToRemove, playerId);
    }
  }
}
