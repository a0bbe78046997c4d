/** The game-id half of the fetching hook: find the user's newest game or
    create one, falling back to the sentinel "mock-game-id" on every guard,
    store error, empty answer or thrown call. */
module GameLoadOperations {

  import opened Types

  /** Whether the store is consulted at all: there is a user id, and it is
      not the offline login's. */
  predicate UsesStore(userId: Option<string>)
  {
    Truthy(userId) && userId.value != MockUserId
  }

  /** The id of the newest game when the store is consulted and lists one. */
  function LoadedGameId(userId: Option<string>, games: Reply<seq<string>>): (r: Option<string>)
    ensures r.Some? <==> UsesStore(userId) && games.Ok? && games.data.Some? && |games.data.value| > 0
    ensures r.Some? ==> r.value == games.data.value[0]
  {
    if !UsesStore(userId) then None
    else if games.Ok? && games.data.Some? && |games.data.value| > 0 then Some(games.data.value[0])
    else None
  }

  /** The id of the created game when the store is consulted and the insert
      answers with a row. */
  function CreatedGameId(userId: Option<string>, newGame: Reply<string>): (r: Option<string>)
    ensures r.Some? <==> UsesStore(userId) && newGame.Ok? && newGame.data.Some?
    ensures r.Some? ==> r.value == newGame.data.value
  {
    if !UsesStore(userId) then None
    else if newGame.Ok? && newGame.data.Some? then Some(newGame.data.value)
    else None
  }

  /** The id a lookup returns: the store's, or the sentinel. */
  function ResolvedId(found: Option<string>): string
  {
    if found.Some? then found.value else MockGameId
  }

  /** The hook's state cell `currentGameId`, and the user id it was made for. */
  class GameLoader {
    const userId: Option<string>
    var currentGameId: Option<string>

    /** The cell starts at the sentinel game id. */
    constructor(userId: Option<string>)
      ensures this.userId == userId && currentGameId == Some(MockGameId)
    {
      this.userId := userId;
      currentGameId := Some(MockGameId);
    }

    /** `loadExistingGame`: the newest game's id, recorded in the cell, or
        the sentinel with the cell left alone. */
    method LoadExistingGame(games: Reply<seq<string>>) returns (id: string)
      modifies this
      ensures id == ResolvedId(LoadedGameId(userId, games))
      ensures currentGameId == if LoadedGameId(userId, games).Some? then LoadedGameId(userId, games)
                               else old(currentGameId)
    {
      if !Truthy(userId) {
        return MockGameId;
      }
      if userId.value == MockUserId {
        return MockGameId;
      }
      if games.Exception? || games.Error? {
        return MockGameId;
      }
      if games.data.Some? && |games.data.value| > 0 {
        currentGameId := Some(games.data.value[0]);
        return games.data.value[0];
      }
      return MockGameId;
    }

    /** `createNewGame`: the new game's id, recorded in the cell, or the
        sentinel with the cell left alone. */
    method CreateNewGame(newGame: Reply<string>) returns (id: string)
      modifies this
      ensures id == ResolvedId(CreatedGameId(userId, newGame))
      ensures currentGameId == if CreatedGameId(userId, newGame).Some? then CreatedGameId(userId, newGame)
                               else old(currentGameId)
    {
      if !Truthy(userId) {
        return MockGameId;
      }
      if userId.value == MockUserId {
        return MockGameId;
      }
      if newGame.Error? {
        return MockGameId;
      }
      if newGame.Ok? && newGame.data.Some? {
        currentGameId := Some(newGame.data.value);
        return newGame.data.value;
      }
      return MockGameId;
    }
  }

  /** Both lookups fall back to the sentinel without a user id, for the
      offline login, on a store error, a thrown call or an empty answer, and
      otherwise return the store's id. */
  lemma LookupOutcomes(userId: Option<string>, games: Reply<seq<string>>, newGame: Reply<string>)
    ensures !Truthy(userId) || userId == Some(MockUserId) ==>
      ResolvedId(LoadedGameId(userId, games)) == MockGameId && ResolvedId(CreatedGameId(userId, newGame)) == MockGameId
    ensures games.Error? || games.Exception? || games == Ok(None) || games == Ok(Some([])) ==>
      ResolvedId(LoadedGameId(userId, games)) == MockGameId
    ensures newGame.Error? || newGame.Exception? || newGame == Ok(None) ==>
      ResolvedId(CreatedGameId(userId, newGame)) == MockGameId
    ensures UsesStore(userId) && games.Ok? && games.data.Some? && |games.data.value| > 0 ==>
      ResolvedId(LoadedGameId(userId, games)) == games.data.value[0]
    ensures UsesStore(userId) && newGame.Ok? && newGame.data.Some? ==>
      ResolvedId(CreatedGameId(userId, newGame)) == newGame.data.value
  {
  }

  /** Neither lookup returns an empty id unless the store itself hands one
      out. */
  lemma NeverEmpty(userId: Option<string>, games: Reply<seq<string>>, newGame: Reply<string>)
    requires games.Ok? && games.data.Some? ==> forall i :: 0 <= i < |games.data.value| ==> games.data.value[i] != ""
    requires newGame.Ok? && newGame.data.Some? ==> newGame.data.value != ""
    ensures ResolvedId(LoadedGameId(userId, games)) != ""
    ensures ResolvedId(CreatedGameId(userId, newGame)) != ""
  {
  }
}
