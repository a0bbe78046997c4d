/** `handleAddPlayer` of the player-management hook that falls back to a
    local player: capped at six players, a fresh id one above the highest
    on the local branch, the store's id on the remote branch. */
module AddPlayer {

  import opened Types
  import opened Roster
  import opened GameStateHook

  /** `players.reduce((max, p) => p.id > max ? p.id : max, 0)`. */
  function HighestId(players: seq<Player>): (m: int)
    ensures m >= 0
    ensures forall i :: 0 <= i < |players| ==> players[i].id <= m
    ensures m == 0 || exists i :: 0 <= i < |players| && players[i].id == m
  {
    if players == [] then 0
    else
      var init := players[..|players| - 1];
      var last := players[|players| - 1];
      var m := HighestId(init);
      assert forall i :: 0 <= i < |init| ==> players[i] == init[i];
      if last.id > m then last.id else m
  }

  /** The player the local branch creates. */
  function NewLocalPlayer(players: seq<Player>): Player
  {
    Player(HighestId(players) + 1, PlayerName(|players| + 1), [], 0, None)
  }

  /** The snapshot after `handleAddPlayer`; `insert` answers the remote
      insert with the id the store assigned. */
  function AddPlayer(g: GameState, insert: Reply<int>): GameState
  {
    if |g.players| >= MaxPlayers then g
    else if IsLocalGame(g.currentGameId) then AppendPlayer(g, NewLocalPlayer(g.players))
    else if Data(insert).None? then g
    else AppendPlayer(g, Player(Data(insert).value, PlayerName(|g.players| + 1), [], 0, None))
  }

  /** With six players or more, add changes nothing. */
  lemma AddAtCapacity(g: GameState, insert: Reply<int>)
    requires |g.players| >= MaxPlayers
    ensures AddPlayer(g, insert) == g
  {
  }

  /** The local branch appends "Player n+1" (n the old count) with no
      regions, score 0 and an id above every existing id, keeps the other
      players, makes the new player active only if the list was empty, and
      keeps the session invariant. */
  lemma LocalAdd(g: GameState, insert: Reply<int>)
    requires |g.players| < MaxPlayers && IsLocalGame(g.currentGameId)
    ensures var r := AddPlayer(g, insert);
      var n := r.players[|g.players|];
      && |r.players| == |g.players| + 1
      && r.players[..|g.players|] == g.players
      && n.name == PlayerName(|g.players| + 1) && n.states == [] && n.score == 0
      && (forall i :: 0 <= i < |g.players| ==> g.players[i].id < n.id)
      && (g.players == [] ==> n.id == 1)
      && r.activePlayer == (if g.players == [] then n.id else g.activePlayer)
      && r.globalSpottedStates == g.globalSpottedStates
      && r.currentGameId == g.currentGameId
      && (Consistent(g) ==> Consistent(r))
  {
    var p := NewLocalPlayer(g.players);
    var r := AddPlayer(g, insert);
    assert r.players == g.players + [p];
    assert r.players[..|g.players|] == g.players;
    if Consistent(g) {
      assert !HasPlayer(g.players, p.id);
      AppendKeepsConsistent(g, p);
    }
  }

  /** The remote branch: a failed, thrown or empty insert changes nothing;
      a successful one appends "Player n+1" with the store's id, active only
      if the list was empty, and keeps the invariant when that id is fresh. */
  lemma RemoteAdd(g: GameState, insert: Reply<int>)
    requires |g.players| < MaxPlayers && !IsLocalGame(g.currentGameId)
    ensures Data(insert).None? ==> AddPlayer(g, insert) == g
    ensures insert.Ok? && insert.data.Some? ==>
      var r := AddPlayer(g, insert);
      var id := insert.data.value;
      && r.players == g.players + [Player(id, PlayerName(|g.players| + 1), [], 0, None)]
      && r.activePlayer == (if g.players == [] then id else g.activePlayer)
      && r.globalSpottedStates == g.globalSpottedStates
      && r.currentGameId == g.currentGameId
      && (Consistent(g) && !HasPlayer(g.players, id) ==> Consistent(r))
  {
    if insert.Ok? && insert.data.Some? && Consistent(g) && !HasPlayer(g.players, insert.data.value) {
      AppendKeepsConsistent(g, Player(insert.data.value, PlayerName(|g.players| + 1), [], 0, None));
    }
  }

  /** `handleAddPlayer` on the session's cells. */
  method HandleAddPlayer(s: Session, insert: Reply<int>)
    modifies s
    ensures s.State() == AddPlayer(old(s.State()), insert)
  {
    var currentPlayers := s.players;
    if |currentPlayers| >= MaxPlayers {
      return;
    }
    var newPlayer: Player;
    if IsLocalGame(s.currentGameId) {
      newPlayer := NewLocalPlayer(currentPlayers);
    } else {
      if Data(insert).None? {
        return;
      }
      newPlayer := Player(Data(insert).value, PlayerName(|currentPlayers| + 1), [], 0, None);
    }
    s.players := currentPlayers + [newPlayer];
    if |currentPlayers| == 0 {
      s.activePlayer := newPlayer.id;
    }
  }
}
