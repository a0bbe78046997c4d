/** Value types shared by the session engine: the player record, the session
    snapshot, and the shapes of the remote store's replies. */
module Types {

  datatype Option<T> = None | Some(value: T)

  /** A region is identified by its catalog code ("CA", "ONT", ...). */
  type RegionId = string

  /** A player of the session. `id` is the client-side numeric id; `states`
      lists the regions this player has spotted; `databaseId` is the store's
      key when the record came with one. */
  datatype Player = Player(
    id: int,
    name: string,
    states: seq<RegionId>,
    score: int,
    databaseId: Option<string>)

  /** A row of the store's `players` table as the engine sees it: the store's
      id has already gone through `parseInt` and is an opaque integer here. */
  datatype PlayerRow = PlayerRow(id: int, name: string, states: seq<RegionId>, score: int)

  /** One snapshot of the session's state cells. `currentGameId` is `None`
      where the source holds `null`. */
  datatype GameState = GameState(
    players: seq<Player>,
    activePlayer: int,
    globalSpottedStates: seq<RegionId>,
    currentGameId: Option<string>)

  /** The reply to a store query or insert-and-select: the query answered
      (with `data` that may be null), answered with its `error` set (the
      data is then null), or the call threw. */
  datatype Reply<T> = Ok(data: Option<T>) | Error | Exception

  /** The reply to a store update or delete, which carries no data. */
  datatype WriteReply = Written | WriteError | WriteException

  /** The sentinel game id of a session that lives only in memory. */
  const MockGameId: string := "mock-game-id"

  /** The sentinel user id of the offline login. */
  const MockUserId: string := "mock-user-id"

  /** The largest number of players a session may have. */
  const MaxPlayers: int := 6

  /** The data a reply carries, or null when it errored or carried none. */
  function Data<T>(reply: Reply<T>): Option<T>
  {
    if reply.Ok? then reply.data else None
  }

  /** JavaScript truthiness of a `string | null`: neither null nor "". */
  predicate Truthy(s: Option<string>)
  {
    s.Some? && s.value != ""
  }

  /** The guard `!currentGameId || currentGameId === "mock-game-id"` that
      sends a handler down its local-only branch. */
  predicate IsLocalGame(gameId: Option<string>)
  {
    !Truthy(gameId) || gameId.value == MockGameId
  }

  /** The `{ id: parseInt(p.id), name, states, score }` record built from a
      store row; it carries no `databaseId`. */
  function FormatPlayer(row: PlayerRow): Player
  {
    Player(row.id, row.name, row.states, row.score, None)
  }

  /** `rows.map(...)` formatting every row of a player query, in order. */
  function FormatPlayers(rows: seq<PlayerRow>): (r: seq<Player>)
    ensures |r| == |rows|
    ensures forall i :: 0 <= i < |rows| ==>
      r[i].id == rows[i].id && r[i].name == rows[i].name && r[i].states == rows[i].states
      && r[i].score == rows[i].score && r[i].databaseId.None?
  {
    seq(|rows|, i requires 0 <= i < |rows| => FormatPlayer(rows[i]))
  }

  /** The decimal digits of `n`, as a template literal prints a number. */
  function NatToString(n: nat): (s: string)
    ensures |s| >= 1
    ensures forall i :: 0 <= i < |s| ==> '0' <= s[i] <= '9'
  {
    if n < 10 then ["0123456789"[n]] else NatToString(n / 10) + ["0123456789"[n % 10]]
  }

  /** The default name `Player ${n}` given to the n-th player. */
  function PlayerName(n: nat): string
  {
    "Player " + NatToString(n)
  }
}
