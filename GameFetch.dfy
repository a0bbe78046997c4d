/** The fetching hook's bootstrap: with no user, a local default player;
    otherwise load or create a game and its players, falling back to the
    default player whenever no player comes back. */
module GameFetch {

  import opened Types
  import opened GameLoadOperations
  import opened PlayerLoadOperations

  /** A player list installed by a successful creation, or the default. */
  function InitialOrDefault(initialPlayer: Option<Player>): seq<Player>
  {
    if initialPlayer.Some? then [initialPlayer.value] else [DefaultPlayer()]
  }

  /** The players installed for an existing game: its stored players if it
      has any, else its created first player, else the default. */
  function PlayersForGame(gameId: string, gamePlayers: Reply<seq<PlayerRow>>, initialPlayer: Reply<int>): seq<Player>
  {
    var existingPlayers := FetchPlayers(gameId, gamePlayers);
    if existingPlayers.Some? then existingPlayers.value
    else InitialOrDefault(CreateInitialPlayer(gameId, initialPlayer))
  }

  /** The players `loadOrCreateGame` installs for a signed-in user whose id
      is `userId`: those of the newest game (or the sentinel game); with no
      usable game id, the created game's first player, else the default. */
  function LoadedPlayers(userId: Option<string>, games: Reply<seq<string>>, gamePlayers: Reply<seq<PlayerRow>>,
                         newGame: Reply<string>, initialPlayer: Reply<int>): seq<Player>
  {
    var existingGameId := ResolvedId(LoadedGameId(userId, games));
    if existingGameId != "" then PlayersForGame(existingGameId, gamePlayers, initialPlayer)
    else
      var newGameId := ResolvedId(CreatedGameId(userId, newGame));
      if newGameId != "" then InitialOrDefault(CreateInitialPlayer(newGameId, initialPlayer))
      else [DefaultPlayer()]
  }

  /** The game id cell after loading: the newest game's id when the store
      listed one, then the created game's id when the lookup gave no usable
      (non-empty) id and a game was created. */
  function LoadedGameIdCell(userId: Option<string>, games: Reply<seq<string>>, newGame: Reply<string>,
                            before: Option<string>): Option<string>
  {
    var existing := LoadedGameId(userId, games);
    var afterLookup := if existing.Some? then existing else before;
    if ResolvedId(existing) != "" then afterLookup
    else if CreatedGameId(userId, newGame).Some? then CreatedGameId(userId, newGame)
    else afterLookup
  }

  /** The hook's `isLoading` and `players` cells, with the game-id hook
      made for the same user. */
  class GameFetch {
    const user: Option<string>
    var isLoading: bool
    const players: PlayersCell
    const loader: GameLoader

    constructor(user: Option<string>)
      ensures this.user == user && isLoading && players.value == []
      ensures loader.userId == user && loader.currentGameId == Some(MockGameId)
      ensures fresh(players) && fresh(loader)
    {
      this.user := user;
      isLoading := true;
      players := new PlayersCell();
      loader := new GameLoader(user);
    }

    /** The mount effect: without a user, install the default player and
        stop loading; with one, run `loadOrCreateGame`. */
    method Start(games: Reply<seq<string>>, gamePlayers: Reply<seq<PlayerRow>>,
                 newGame: Reply<string>, initialPlayer: Reply<int>)
      requires loader.userId == user
      modifies this, players, loader
      ensures !isLoading
      ensures user.None? ==> players.value == [DefaultPlayer()] && loader.currentGameId == old(loader.currentGameId)
      ensures user.Some? ==> players.value == LoadedPlayers(user, games, gamePlayers, newGame, initialPlayer)
      ensures user.Some? ==>
        loader.currentGameId == LoadedGameIdCell(user, games, newGame, old(loader.currentGameId))
    {
      if user.Some? {
        LoadOrCreateGame(games, gamePlayers, newGame, initialPlayer);
      } else {
        var _ := SetDefaultPlayer(players);
        isLoading := false;
      }
    }

    /** Installs the created first player of game `gameId`, or the default. */
    method InstallInitial(gameId: string, initialPlayer: Reply<int>)
      modifies players
      ensures players.value == InitialOrDefault(CreateInitialPlayer(gameId, initialPlayer))
    {
      var initial := CreateInitialPlayer(gameId, initialPlayer);
      if initial.Some? {
        players.value := [initial.value];
      } else {
        var _ := SetDefaultPlayer(players);
      }
    }

    /** Installs the stored players of game `gameId`; with none, its created
        first player, or the default. */
    method InstallForGame(gameId: string, gamePlayers: Reply<seq<PlayerRow>>, initialPlayer: Reply<int>)
      modifies players
      ensures players.value == PlayersForGame(gameId, gamePlayers, initialPlayer)
    {
      var existingPlayers := FetchPlayers(gameId, gamePlayers);
      if existingPlayers.Some? {
        players.value := existingPlayers.value;
      } else {
        InstallInitial(gameId, initialPlayer);
      }
    }

    /** `loadOrCreateGame`. Every store call it makes goes through a helper
        that catches its own errors, so its own catch-all is never reached. */
    method LoadOrCreateGame(games: Reply<seq<string>>, gamePlayers: Reply<seq<PlayerRow>>,
                            newGame: Reply<string>, initialPlayer: Reply<int>)
      requires loader.userId == user
      modifies this, players, loader
      ensures !isLoading
      ensures user.None? ==> players.value == old(players.value) && loader.currentGameId == old(loader.currentGameId)
      ensures user.Some? ==> players.value == LoadedPlayers(user, games, gamePlayers, newGame, initialPlayer)
      ensures user.Some? ==>
        loader.currentGameId == LoadedGameIdCell(user, games, newGame, old(loader.currentGameId))
    {
      if user.None? {
        isLoading := false;
        return;
      }
      isLoading := true;
      var existingGameId := loader.LoadExistingGame(games);
      if existingGameId != "" {
        InstallForGame(existingGameId, gamePlayers, initialPlayer);
      } else {
        var newGameId := loader.CreateNewGame(newGame);
        if newGameId != "" {
          InstallInitial(newGameId, initialPlayer);
        } else {
          var _ := SetDefaultPlayer(players);
        }
      }
      isLoading := false;
    }
  }

  /** After loading, the player list is never empty: fetched lists are
      non-empty and every other path installs one player. */
  lemma LoadedPlayersNonEmpty(userId: Option<string>, games: Reply<seq<string>>,
                                                 gamePlayers: Reply<seq<PlayerRow>>, newGame: Reply<string>,
                                                 initialPlayer: Reply<int>)
    ensures |LoadedPlayers(userId, games, gamePlayers, newGame, initialPlayer)| >= 1
  {
    var existingGameId := ResolvedId(LoadedGameId(userId, games));
    if existingGameId != "" {
      var existingPlayers := FetchPlayers(existingGameId, gamePlayers);
      if existingPlayers.Some? {
        assert |existingPlayers.value| > 0;
      }
      assert LoadedPlayers(userId, games, gamePlayers, newGame, initialPlayer)
          == PlayersForGame(existingGameId, gamePlayers, initialPlayer);
    }
  }

  /** The branches of the decision tree: players the store returns for the
      game are installed as formatted; with none, the created first player
      is installed; if that creation fails too, the default player is. */
  lemma LoadedPlayersOutcome(userId: Option<string>, games: Reply<seq<string>>,
                                                gamePlayers: Reply<seq<PlayerRow>>, newGame: Reply<string>,
                                                initialPlayer: Reply<int>)
    requires ResolvedId(LoadedGameId(userId, games)) != ""
    ensures var r := LoadedPlayers(userId, games, gamePlayers, newGame, initialPlayer);
      && (gamePlayers.Ok? && gamePlayers.data.Some? && |gamePlayers.data.value| > 0 ==>
            r == FormatPlayers(gamePlayers.data.value))
      && (!(gamePlayers.Ok? && gamePlayers.data.Some? && |gamePlayers.data.value| > 0) ==>
            r == [if initialPlayer.Ok? && initialPlayer.data.Some?
                  then Player(initialPlayer.data.value, "Player 1", [], 0, None)
                  else Player(1, "Player 1", [], 0, None)])
  {
    var existingGameId := ResolvedId(LoadedGameId(userId, games));
    var existingPlayers := FetchPlayers(existingGameId, gamePlayers);
    if existingPlayers.Some? {
      assert existingPlayers.value == FormatPlayers(gamePlayers.data.value);
    }
  }

  /** The offline login never uses the game query or the game insert: it
      loads players for the sentinel game id, and, with none, its first
      player or the default. */
  lemma OfflineLogin(games: Reply<seq<string>>, gamePlayers: Reply<seq<PlayerRow>>,
                     newGame: Reply<string>, initialPlayer: Reply<int>, before: Option<string>)
    ensures LoadedGameIdCell(Some(MockUserId), games, newGame, before) == before
    ensures LoadedPlayers(Some(MockUserId), games, gamePlayers, newGame, initialPlayer)
         == LoadedPlayers(Some(MockUserId), Error, gamePlayers, Error, initialPlayer)
  {
  }
}
