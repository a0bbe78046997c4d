/** The player-management hook the player panel uses: rename, add and
    remove, each refused outright when the session has no game id and
    otherwise applied only after the store call succeeds. Unlike the local
    fallback hooks, the mock game id gets no special treatment here. */
module PlayerOperations {

  import opened Types
  import opened Roster
  import opened GameStateHook
  import LocalRemoval = RemovePlayer

  /** The snapshot after `handleNameChange(playerId, newName)`. */
  function NameChange(g: GameState, playerId: int, newName: string, update: WriteReply): GameState
  {
    if !Truthy(g.currentGameId) || !update.Written? then g
    else g.(players := RenamePlayer(g.players, playerId, newName))
  }

  /** The snapshot after `handleAddPlayer`; `insert` answers the insert
      with the id the store assigned. */
  function AddPlayer(g: GameState, insert: Reply<int>): GameState
  {
    if !Truthy(g.currentGameId) || |g.players| >= MaxPlayers || Data(insert).None? then g
    else AppendPlayer(g, Player(Data(insert).value, PlayerName(|g.players| + 1), [], 0, None))
  }

  /** The snapshot after `handleRemovePlayer(playerId)`; `delete` answers
      the delete. */
  function RemovePlayer(g: GameState, playerId: int, delete: WriteReply): GameState
  {
    if !Truthy(g.currentGameId) || |g.players| <= 1 || !delete.Written? then g
    else RemovePlayerLocally(g, FindPlayer(g.players, playerId), playerId)
  }

  /** Without a game id, every operation changes nothing, whatever the store
      would have answered. */
  lemma NoGameIdNoChange(g: GameState, playerId: int, newName: string, update: WriteReply,
                         insert: Reply<int>, delete: WriteReply)
    requires !Truthy(g.currentGameId)
    ensures NameChange(g, playerId, newName, update) == g
    ensures AddPlayer(g, insert) == g
    ensures RemovePlayer(g, playerId, delete) == g
  {
  }

  /** A successful update renames only the matching player and keeps the
      invariant; a failed or thrown one changes nothing. */
  lemma NameChangeOutcome(g: GameState, playerId: int, newName: string, update: WriteReply)
    requires Truthy(g.currentGameId)
    ensures var r := NameChange(g, playerId, newName, update);
      && (!update.Written? ==> r == g)
      && (update.Written? ==>
            && |r.players| == |g.players|
            && (forall i :: 0 <= i < |g.players| ==>
                  r.players[i] == if g.players[i].id == playerId then g.players[i].(name := newName) else g.players[i])
            && r.globalSpottedStates == g.globalSpottedStates && r.activePlayer == g.activePlayer
            && r.currentGameId == g.currentGameId)
      && (Consistent(g) ==> Consistent(r))
  {
    RenameKeepsClaims(g, playerId, newName);
  }

  /** Add is refused at six players and on a failed, thrown or empty insert;
      otherwise it appends "Player n+1" with the store's id, active only if
      the list was empty, and keeps the invariant when that id is fresh. */
  lemma AddOutcome(g: GameState, insert: Reply<int>)
    requires Truthy(g.currentGameId)
    ensures |g.players| >= MaxPlayers || Data(insert).None? ==> AddPlayer(g, insert) == g
    ensures |g.players| < MaxPlayers && insert.Ok? && insert.data.Some? ==>
      var r := AddPlayer(g, insert);
      var id := insert.data.value;
      && r.players == g.players + [Player(id, PlayerName(|g.players| + 1), [], 0, None)]
      && r.activePlayer == (if g.players == [] then id else g.activePlayer)
      && r.globalSpottedStates == g.globalSpottedStates
      && r.currentGameId == g.currentGameId
      && (Consistent(g) && !HasPlayer(g.players, id) ==> Consistent(r))
  {
    if |g.players| < MaxPlayers && insert.Ok? && insert.data.Some? && Consistent(g)
       && !HasPlayer(g.players, insert.data.value) {
      AppendKeepsConsistent(g, Player(insert.data.value, PlayerName(|g.players| + 1), [], 0, None));
    }
  }

  /** Remove is refused at one player or fewer and on a failed or thrown
      delete. After a successful delete of the player at `k`, the player is
      dropped with the rest in order, the regions they held leave the global
      list, the active id falls back to the first remaining player if it was
      theirs, and a consistent session stays consistent. */
  lemma RemoveOutcome(g: GameState, k: int, delete: WriteReply)
    requires Truthy(g.currentGameId) && UniqueIds(g.players) && 0 <= k < |g.players|
    ensures var p := g.players[k];
      var r := RemovePlayer(g, p.id, delete);
      && (|g.players| <= 1 || !delete.Written? ==> r == g)
      && (|g.players| >= 2 && delete.Written? ==>
            && r.players == g.players[..k] + g.players[k + 1..]
            && (forall y :: y in r.globalSpottedStates <==> y in g.globalSpottedStates && y !in p.states)
            && r.activePlayer == (if g.activePlayer == p.id then r.players[0].id else g.activePlayer)
            && r.currentGameId == g.currentGameId
            && (Consistent(g) ==> Consistent(r)))
  {
    FindPlayerAt(g.players, k);
    WithoutPlayerAt(g.players, k);
    if |g.players| >= 2 && Consistent(g) {
      RemoveKeepsConsistent(g, k);
    }
  }

  /** The wired remove, after a successful delete, with an id that no player
      has: players and the global list are kept, but an active id equal to
      that id still moves to the first player. */
  lemma RemoveUnknownId(g: GameState, playerId: int)
    requires Truthy(g.currentGameId) && |g.players| >= 2 && !HasPlayer(g.players, playerId)
    ensures var r := RemovePlayer(g, playerId, Written);
      && r.players == g.players && r.globalSpottedStates == g.globalSpottedStates
      && r.activePlayer == (if g.activePlayer == playerId then g.players[0].id else g.activePlayer)
  {
  }

  /** `handleNameChange` on the session's cells. */
  method HandleNameChange(s: Session, playerId: int, newName: string, update: WriteReply)
    modifies s
    ensures s.State() == NameChange(old(s.State()), playerId, newName, update)
  {
    if !Truthy(s.currentGameId) {
      return;
    }
    if !update.Written? {
      return;
    }
    s.players := RenamePlayer(s.players, playerId, newName);
  }

  /** `handleAddPlayer` on the session's cells. */
  method HandleAddPlayer(s: Session, insert: Reply<int>)
    modifies s
    ensures s.State() == AddPlayer(old(s.State()), insert)
  {
    if !Truthy(s.currentGameId) {
      return;
    }
    var currentPlayers := s.players;
    if |currentPlayers| >= MaxPlayers {
      return;
    }
    if Data(insert).None? {
      return;
    }
    var formattedPlayer := Player(Data(insert).value, PlayerName(|currentPlayers| + 1), [], 0, None);
    s.players := currentPlayers + [formattedPlayer];
    if |currentPlayers| == 0 {
      s.activePlayer := formattedPlayer.id;
    }
  }

  /** `handleRemovePlayer` on the session's cells. */
  method HandleRemovePlayer(s: Session, playerId: int, delete: WriteReply)
    modifies s
    ensures s.State() == RemovePlayer(old(s.State()), playerId, delete)
  {
    if !Truthy(s.currentGameId) {
      return;
    }
    if |s.players| <= 1 {
      return;
    }
    if !delete.Written? {
      return;
    }
    var playerToRemove := FindPlayer(s.players, playerId);
    LocalRemoval.RemoveLocally(s, playerToRemove, playerId);
  }
}
