/** `handleNameChange` of the player-management hook that renames locally
    in a local game and after a successful store update otherwise. */
module PlayerNameOperations {

  import opened Types
  import opened Roster
  import opened GameStateHook

  /** The snapshot after `handleNameChange(playerId, newName)`; `update`
      answers the remote update. */
  function NameChange(g: GameState, playerId: int, newName: string, update: WriteReply): GameState
  {
    if IsLocalGame(g.currentGameId) || update.Written? then
      g.(players := RenamePlayer(g.players, playerId, newName))
    else g
  }

  /** In a local game or after a successful update, only the name of the
      matching player changes; ids, regions, scores, the other players, the
      global list and the active id are kept, and so is the invariant. A
      failed or thrown update, or an id no player has, changes nothing. */
  lemma NameChangeOutcome(g: GameState, playerId: int, newName: string, update: WriteReply)
    ensures var r := NameChange(g, playerId, newName, update);
      && (!IsLocalGame(g.currentGameId) && !update.Written? ==> r == g)
      && (!HasPlayer(g.players, playerId) ==> r == g)
      && |r.players| == |g.players|
      && (forall i :: 0 <= i < |g.players| ==>
            r.players[i] == if g.players[i].id == playerId && (IsLocalGame(g.currentGameId) || update.Written?)
                            then g.players[i].(name := newName) else g.players[i])
      && r.globalSpottedStates == g.globalSpottedStates && r.activePlayer == g.activePlayer
      && r.currentGameId == g.currentGameId
      && (Consistent(g) ==> Consistent(r))
  {
    RenameKeepsClaims(g, playerId, newName);
  }

  /** `handleNameChange` on the session's cells. */
  method HandleNameChange(s: Session, playerId: int, newName: string, update: WriteReply)
    modifies s
    ensures s.State() == NameChange(old(s.State()), playerId, newName, update)
  {
    if IsLocalGame(s.currentGameId) {
      s.players := RenamePlayer(s.players, playerId, newName);
      return;
    }
    if update.Written? {
      s.players := RenamePlayer(s.players, playerId, newName);
    }
  }
}
