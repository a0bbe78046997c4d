/** The player half of the fetching hook: read a game's players, insert
    its first player, and fall back to a local default player. */
module PlayerLoadOperations {

  import opened Types

  /** `fetchPlayers(gameId)`: the game's players, formatted in the store's
      order, or null for an empty game id, a store error, a thrown call or
      an empty answer. */
  function FetchPlayers(gameId: string, reply: Reply<seq<PlayerRow>>): (r: Option<seq<Player>>)
    ensures r.Some? <==> gameId != "" && reply.Ok? && reply.data.Some? && |reply.data.value| > 0
    ensures r.Some? ==> |r.value| == |reply.data.value| > 0
    ensures r.Some? ==> forall i :: 0 <= i < |r.value| ==>
      r.value[i] == Player(reply.data.value[i].id, reply.data.value[i].name, reply.data.value[i].states,
                           reply.data.value[i].score, None)
  {
    if gameId == "" then None
    else if reply.Ok? && reply.data.Some? && |reply.data.value| > 0 then Some(FormatPlayers(reply.data.value))
    else None
  }

  /** `createInitialPlayer(gameId)`: the inserted "Player 1" with no regions
      and score 0, carrying the id the store assigned, or null for an empty
      game id, a store error (thrown and caught), a thrown call or an empty
      answer. */
  function CreateInitialPlayer(gameId: string, reply: Reply<int>): (r: Option<Player>)
    ensures r.Some? <==> gameId != "" && reply.Ok? && reply.data.Some?
    ensures r.Some? ==> r.value == Player(reply.data.value, "Player 1", [], 0, None)
  {
    if gameId == "" then None
    else if reply.Ok? && reply.data.Some? then Some(Player(reply.data.value, "Player 1", [], 0, None))
    else None
  }

  /** The local default player. */
  function DefaultPlayer(): Player
  {
    Player(1, "Player 1", [], 0, None)
  }

  /** A `players` state cell, written through its setter. */
  class PlayersCell {
    var value: seq<Player>

    constructor()
      ensures value == []
    {
      value := [];
    }
  }

  /** `setDefaultPlayer(setter?)`: returns the default player and, when a
      setter is given, installs the one-player list holding it. */
  method SetDefaultPlayer(cell: PlayersCell?) returns (p: Player)
    modifies cell
    ensures p == Player(1, "Player 1", [], 0, None)
    ensures cell != null ==> cell.value == [p]
  {
    p := DefaultPlayer();
    if cell != null {
      cell.value := [p];
    }
  }
}
