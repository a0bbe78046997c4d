/** The session state cells of the top-level game-state hook and its
    `loadOrCreateGame` reconciliation: load the newest game and its players,
    or create a game with one "Player 1". Each store call is an input reply;
    an `Exception` reply stands for a call that threw, which ends the
    procedure with the cells already set kept as they are. */
module GameStateHook {

  import opened Types
  import opened Lists
  import opened Roster

  /** `formattedPlayers.reduce((acc, p) => [...acc, ...p.states], [])`:
      every player's regions, in player order. */
  function AllSpottedStates(players: seq<Player>): (r: seq<RegionId>)
    ensures forall x :: x in r <==> Holds(players, x)
  {
    if players == [] then []
    else
      var init := players[..|players| - 1];
      var last := players[|players| - 1];
      var acc := AllSpottedStates(init);
      assert forall x :: Holds(players, x) <==> Holds(init, x) || x in last.states by {
        forall x ensures Holds(players, x) <==> Holds(init, x) || x in last.states {
          if Holds(players, x) {
            var i :| 0 <= i < |players| && x in players[i].states;
            if i < |players| - 1 { assert init[i] == players[i]; }
          }
          if Holds(init, x) {
            var i :| 0 <= i < |init| && x in init[i].states;
            assert players[i] == init[i];
          }
        }
      }
      acc + last.states
  }

  /** The state cells of a session: `players`, `activePlayer`,
      `globalSpottedStates` and `currentGameId`. */
  class Session {
    var players: seq<Player>
    var activePlayer: int
    var globalSpottedStates: seq<RegionId>
    var currentGameId: Option<string>

    /** The snapshot the handlers read. */
    function State(): GameState
      reads this
    {
      GameState(players, activePlayer, globalSpottedStates, currentGameId)
    }

    /** A new session: no players, active id 0, nothing spotted, no game. */
    constructor()
      ensures State() == GameState([], 0, [], None)
    {
      players := [];
      activePlayer := 0;
      globalSpottedStates := [];
      currentGameId := None;
    }

    /** `loadOrCreateGame`, one cell at a time. `user` is the signed-in
        user's id, `None` when nobody is signed in; the four replies answer
        the newest-game query, the player query, the game insert and the
        player insert, in that order. */
    method LoadOrCreateGame(user: Option<string>, games: Reply<seq<string>>,
                            gamePlayers: Reply<seq<PlayerRow>>, newGame: Reply<string>,
                            newPlayer: Reply<int>)
      modifies this
      ensures State() == LoadOrCreate(old(State()), user, games, gamePlayers, newGame, newPlayer)
    {
      if user.None? { return; }
      if games.Exception? { return; }
      var found := Data(games);
      if found.Some? && |found.value| > 0 {
        var gameId := found.value[0];
        currentGameId := Some(gameId);
        if gamePlayers.Exception? { return; }
        var rows := Data(gamePlayers);
        if rows.Some? && |rows.value| > 0 {
          var formattedPlayers := FormatPlayers(rows.value);
          players := formattedPlayers;
          activePlayer := formattedPlayers[0].id;
          globalSpottedStates := Dedup(AllSpottedStates(formattedPlayers));
          return;
        }
      }
      if newGame.Exception? { return; }
      var created := Data(newGame);
      if created.Some? {
        currentGameId := Some(created.value);
        if newPlayer.Exception? { return; }
        var playerId := Data(newPlayer);
        if playerId.Some? {
          players := [Player(playerId.value, "Player 1", [], 0, None)];
          activePlayer := playerId.value;
        }
      }
    }
  }

  /** The snapshot after `loadOrCreateGame` (see `Session.LoadOrCreateGame`). */
  function LoadOrCreate(g: GameState, user: Option<string>, games: Reply<seq<string>>,
                        gamePlayers: Reply<seq<PlayerRow>>, newGame: Reply<string>,
                        newPlayer: Reply<int>): GameState
  {
    if user.None? || games.Exception? then g
    else
      var found := Data(games);
      var hasGame := found.Some? && |found.value| > 0;
      var g1 := if hasGame then g.(currentGameId := Some(found.value[0])) else g;
      if hasGame && gamePlayers.Exception? then g1
      else
        var rows := Data(gamePlayers);
        if hasGame && rows.Some? && |rows.value| > 0 then
          var formattedPlayers := FormatPlayers(rows.value);
          g1.(players := formattedPlayers, activePlayer := formattedPlayers[0].id,
              globalSpottedStates := Dedup(AllSpottedStates(formattedPlayers)))
        else CreateGame(g1, newGame, newPlayer)
  }

  /** The create branch: record the new game's id, then install the inserted
      "Player 1" as the only, active, player. */
  function CreateGame(g: GameState, newGame: Reply<string>, newPlayer: Reply<int>): GameState
  {
    if newGame.Exception? || Data(newGame).None? then g
    else
      var g1 := g.(currentGameId := Some(Data(newGame).value));
      if newPlayer.Exception? || Data(newPlayer).None? then g1
      else
        var pid := Data(newPlayer).value;
        g1.(players := [Player(pid, "Player 1", [], 0, None)], activePlayer := pid)
  }

  /** Without a signed-in user, or when the newest-game query throws,
      loading leaves every cell as it was. */
  lemma NoUserNoChange(g: GameState, user: Option<string>, games: Reply<seq<string>>,
                       gamePlayers: Reply<seq<PlayerRow>>, newGame: Reply<string>, newPlayer: Reply<int>)
    ensures LoadOrCreate(g, None, games, gamePlayers, newGame, newPlayer) == g
    ensures LoadOrCreate(g, user, Exception, gamePlayers, newGame, newPlayer) == g
  {
  }

  /** Players loaded for the newest game are installed in the store's order,
      the first becomes active, the game id is recorded, and the global list
      holds, once each, exactly the regions the loaded players hold. Loaded
      players that keep the session invariant's own rules give a consistent
      session. */
  lemma LoadedGame(g: GameState, user: string, gameIds: seq<string>,
                                      rows: seq<PlayerRow>, newGame: Reply<string>, newPlayer: Reply<int>)
    requires |gameIds| > 0 && |rows| > 0
    ensures var r := LoadOrCreate(g, Some(user), Ok(Some(gameIds)), Ok(Some(rows)), newGame, newPlayer);
      && |r.players| == |rows|
      && (forall i :: 0 <= i < |rows| ==> r.players[i] == Player(rows[i].id, rows[i].name, rows[i].states, rows[i].score, None))
      && r.activePlayer == rows[0].id
      && r.currentGameId == Some(gameIds[0])
      && GlobalIsUnion(r.players, r.globalSpottedStates)
      && NoDup(r.globalSpottedStates)
      && (|rows| <= MaxPlayers && UniqueIds(r.players) && DisjointClaims(r.players) ==> Consistent(r))
  {
    var r := LoadOrCreate(g, Some(user), Ok(Some(gameIds)), Ok(Some(rows)), newGame, newPlayer);
    assert r.players == FormatPlayers(rows);
    assert HasPlayer(r.players, r.activePlayer) by {
      assert r.players[0].id == r.activePlayer;
    }
  }

  /** With no stored game, or a stored game without players, a successful
      game insert and player insert install "Player 1" (no regions, score 0)
      as the only and active player of the new game; the global list is
      left as it was, so from an empty one the session is consistent. */
  lemma CreatedGame(g: GameState, user: string, games: Reply<seq<string>>,
                                       gamePlayers: Reply<seq<PlayerRow>>, gameId: string, playerId: int)
    requires !games.Exception?
    requires var found := Data(games);
      found.None? || |found.value| == 0
      || (!gamePlayers.Exception? && (Data(gamePlayers).None? || |Data(gamePlayers).value| == 0))
    ensures var r := LoadOrCreate(g, Some(user), games, gamePlayers, Ok(Some(gameId)), Ok(Some(playerId)));
      && r.players == [Player(playerId, "Player 1", [], 0, None)]
      && r.activePlayer == playerId
      && r.currentGameId == Some(gameId)
      && r.globalSpottedStates == g.globalSpottedStates
      && (g.globalSpottedStates == [] ==> Consistent(r))
  {
    var r := LoadOrCreate(g, Some(user), games, gamePlayers, Ok(Some(gameId)), Ok(Some(playerId)));
    if g.globalSpottedStates == [] {
      assert r.players[0].id == playerId;
      assert forall x :: !Holds(r.players, x);
    }
  }

  /** With no game found, a failed game insert (an error, a throw, or no
      data back) leaves every cell as it was, whatever the player query and
      the player insert answer. */
  lemma FailedCreateKeepsPlayers(g: GameState, user: Option<string>, games: Reply<seq<string>>,
                                                    gamePlayers: Reply<seq<PlayerRow>>, newPlayer: Reply<int>)
    requires var found := Data(games);
      found.None? || |found.value| == 0
    ensures LoadOrCreate(g, user, games, gamePlayers, Error, newPlayer) == g
    ensures LoadOrCreate(g, user, games, gamePlayers, Exception, newPlayer) == g
    ensures LoadOrCreate(g, user, games, gamePlayers, Ok(None), newPlayer) == g
  {
  }
}
