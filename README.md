# plateplay-palooza session engine, in Dafny

A model of the game-session engine of a "spot the licence plate" web app.
Players of one session claim US states, DC and Canadian provinces ("regions")
they have seen. A region claimed by one player cannot be claimed by another.
A global list of spotted regions is kept beside the per-player lists. Players
can be added (at most six), removed (at least one stays) and renamed. A
session starts from a remote store when one answers, and otherwise falls
back to a local game with the sentinel id `"mock-game-id"` and a default
"Player 1".

Each React state cell becomes a field of a class: `GameStateHook.Session`,
`GameLoadOperations.GameLoader`, `GameFetch.GameFetch`,
`PlayerLoadOperations.PlayersCell` and `IndexPage.IndexPage`. Each handler
is a method that updates those fields step by step, as the source calls its
setters. Its `ensures` ties the new state to a pure transition function on a
`GameState` snapshot. The lemmas state what the source promises about those
functions. Every reply of the remote store is an input value: `Reply<T>`
(answered with data or null, answered with an error, or thrown) for queries
and inserts, and `WriteReply` for updates and deletes.

The central invariant is `Roster.Consistent`:
- 1 to 6 players with distinct ids;
- the active id names one of them;
- no region is held by two players;
- the global list holds, once each, exactly the regions some player holds.

Toggle, new game, local add, remove and rename are proved to keep it. The
remote add keeps it only when the id the store returns for the new player
is not already a player's id; the code does not check this, so
`AddPlayer.RemoteAdd` and `PlayerOperations.AddOutcome` promise the
invariant only under that condition.

One module per source file:

| module | source file |
|---|---|
| `StateData` | src/utils/stateData.ts |
| `GameOperations` | src/hooks/game/useGameOperations.ts |
| `AddPlayer` | src/hooks/player/operations/useAddPlayer.ts |
| `RemovePlayer` | src/hooks/player/operations/useRemovePlayer.ts |
| `PlayerNameOperations` | src/hooks/player/operations/usePlayerNameOperations.ts |
| `PlayerOperations` | src/hooks/player/usePlayerOperations.ts |
| `GameStateHook` | src/hooks/useGameState.ts |
| `GameFetch` | src/hooks/game/useGameFetch.ts |
| `GameLoadOperations` | src/hooks/game/operations/useGameOperations.ts |
| `PlayerLoadOperations` | src/hooks/game/operations/usePlayerOperations.ts |
| `GameBoard` | src/components/game/GameBoard.tsx |
| `IndexPage` | src/pages/Index.tsx |

Three modules hold shared parts:
- `Types`: the player record, the snapshot, the reply shapes and the constants.
- `Lists`: the `filter` and `Set` operations on region lists.
- `Roster`: player-list operations used by several handlers, and the invariant.

## Behaviour as written

Where the code behaves in a way a reader might not expect:
- **Toggle score.** A toggle sets a player's score to the *number* of
  regions they hold, not to the sum of catalog points. Spotting Ontario
  scores 1, although the catalog says 2 (`GameOperations.ToggleScoresCount`).
  Catalog points are only used by the single-player page's
  `calculateScore`.
- **Rename.** Renaming never recomputes the score.
- **Removal.** Removal filters the removed player's regions out of the
  global list instead of recomputing the list from the remaining players.
  Under the invariant the two agree (`Roster.RemoveKeepsConsistent`).
- **Failed writes.** A failed store write leaves the state unchanged rather
  than being applied locally.
- **The two player-management hooks.** The fallback hooks (`AddPlayer`,
  `RemovePlayer`, `PlayerNameOperations`) treat a missing or sentinel game
  id as a local game. The wired hook (`PlayerOperations`) refuses every
  operation without a game id and treats the sentinel like any other id.

## Model

| member | source | states |
|---|---|---|
| StateData.CatalogShape | src/utils/stateData.ts:11-79 | the catalog has 64 entries: the 50 US states and DC (51 entries) worth 1 point, the 13 provinces and territories worth 2, each id equal to its abbreviation, none spotted |
| StateData.CatalogIdsUnique | src/utils/stateData.ts:11-79 | no two catalog entries share an id |
| StateData.FindById | src/utils/stateData.ts:83 | `find` by id: none exactly when no entry has the id, otherwise the first entry that has it |
| StateData.FindStateByAbbreviation | src/utils/stateData.ts:100-102 | none exactly when no catalog entry has the abbreviation, otherwise the first catalog entry that has it |
| StateData.PointsOf | src/utils/stateData.ts:83-84 | a region adds its catalog points (1 or 2), and an id outside the catalog adds 1 |
| StateData.CalculateScore | src/utils/stateData.ts:81-86 | the score of n entries lies between n and 2n (0 for none) |
| StateData.CalculateScoreAppend | src/utils/stateData.ts:81-86 | the score is additive over concatenation |
| StateData.CalculateScoreOfOne | src/utils/stateData.ts:81-86 | one entry scores its region's points |
| StateData.ProvinceWorthTwo | src/utils/stateData.ts:17-72 | Ontario is worth 2 points and California 1 |
| StateData.NameLeTotal | src/utils/stateData.ts:96 | the name order used in place of `localeCompare` is total |
| StateData.NameLeTransitive | src/utils/stateData.ts:96 | the name order is transitive |
| StateData.Insert | src/utils/stateData.ts:92-97 | inserting into a sorted list gives a sorted list with one more copy of the entry |
| StateData.SortStatesBySpotted | src/utils/stateData.ts:92-97 | the result is a permutation of the input, spotted entries come before unspotted ones, and names ascend within each group |
| StateData.IdsUniquePermutation | src/utils/stateData.ts:92-93 | sorting a list with distinct ids yields distinct ids |
| StateData.SpottedStates | src/utils/stateData.ts:104-106 | the filter keeps only spotted entries, each taken from the input, and is no longer than it |
| StateData.SpottedStatesCounts | src/utils/stateData.ts:104-106 | the filter keeps every spotted entry as often as it occurs and nothing else |
| StateData.SpottedStatesAppend | src/utils/stateData.ts:104-106 | filtering a concatenation filters each part in order, so the filter keeps the input's order |
| StateData.GetSpottedStates | src/utils/stateData.ts:104-106 | the catalog's spotted entries: none, since the catalog starts with none spotted |
| Lists.Find | src/utils/stateData.ts:83 | `find`: none exactly when no element matches, otherwise the first element that matches |
| Lists.Remove | src/hooks/game/useGameOperations.ts:38-47 | `filter(id => id !== x)` keeps exactly the other values, keeps the list when x is absent, and keeps it duplicate-free |
| Lists.RemoveAll | src/hooks/player/operations/useRemovePlayer.ts:105-107 | filtering by another list keeps exactly the values not in it, and keeps the list duplicate-free |
| Lists.Dedup | src/hooks/useGameState.ts:45 | `[...new Set(xs)]` has the same values as xs, each once |
| Lists.RemoveAppended | src/hooks/game/useGameOperations.ts:38-39 | filtering out a value that was just appended gives back the earlier list |
| Roster.FindPlayer | src/hooks/game/useGameOperations.ts:23 | `find` by id: none exactly when no player has the id, otherwise the first player that has it |
| Roster.FindPlayerAt | src/hooks/player/operations/useRemovePlayer.ts:38 | with distinct ids, looking up a player's id finds that player |
| Roster.RenameKeepsClaims | src/hooks/player/operations/usePlayerNameOperations.ts:23-27 | renaming keeps every id, region list and score, keeps the invariant, and with an unknown id changes nothing |
| Roster.WithoutPlayer | src/hooks/player/operations/useRemovePlayer.ts:110 | `filter(p => p.id !== id)` keeps exactly the players with another id, and keeps the list when none has the id |
| Roster.WithoutPlayerAt | src/hooks/player/operations/useRemovePlayer.ts:110 | with distinct ids, filtering out one player's id drops exactly that player and keeps the others in order |
| Roster.DropKeepsUnion | src/hooks/player/operations/useRemovePlayer.ts:104-111 | with disjoint claims, filtering the removed player's regions out of the global list leaves exactly the union of the remaining claims |
| Roster.RemoveKeepsConsistent | src/hooks/player/operations/useRemovePlayer.ts:103-118 | local removal from a consistent session of two or more players keeps the rest in order, leaves global = union of the remaining claims, and keeps the invariant |
| Roster.AppendKeepsConsistent | src/hooks/player/operations/useAddPlayer.ts:50-57 | appending a claim-free player with a fresh id below the cap keeps the invariant |
| GameStateHook.AllSpottedStates | src/hooks/useGameState.ts:43-44 | the concatenated lists hold exactly the regions some player holds |
| GameStateHook.Session.constructor | src/hooks/useGameState.ts:10-13 | a session starts with no players, active id 0, an empty global list and a null game id |
| GameStateHook.Session.LoadOrCreateGame | src/hooks/useGameState.ts:15-88 | the cells set step by step end as `LoadOrCreate` of the old snapshot and the store's replies |
| GameStateHook.NoUserNoChange | src/hooks/useGameState.ts:16-87 | with no user, or when the first query throws, nothing changes |
| GameStateHook.LoadedGame | src/hooks/useGameState.ts:25-46 | loaded players are installed in order, the first becomes active, the game id is recorded, and the global list is the duplicate-free union of their regions (a consistent session when the loaded players obey the invariant's rules) |
| GameStateHook.CreatedGame | src/hooks/useGameState.ts:50-78 | with no game or no players, successful inserts install "Player 1" (no regions, score 0) as the only, active player of the new game |
| GameStateHook.FailedCreateKeepsPlayers | src/hooks/useGameState.ts:50-56 | with no game found, a game insert that errors, throws or returns no data changes nothing |
| GameOperations.ToggleOutcome | src/hooks/game/useGameOperations.ts:22-60 | a region spotted by another player is rejected with no change; otherwise the region is appended to or filtered out of the active player's list, the score becomes the new list's length, every other player is kept, and the global list gains the region, or loses it unless another player holds it |
| GameOperations.ToggleWithoutActivePlayer | src/hooks/game/useGameOperations.ts:23-24 | without a player holding the active id, a toggle changes nothing |
| GameOperations.ClaimKeepsUnion | src/hooks/game/useGameOperations.ts:37-51 | claiming a region nobody holds keeps global = union, duplicate-free and disjoint |
| GameOperations.UnclaimKeepsUnion | src/hooks/game/useGameOperations.ts:37-48 | dropping a region only its holder had, from that holder and from the global list, keeps global = union and disjoint |
| GameOperations.TogglePreservesConsistent | src/hooks/game/useGameOperations.ts:22-60 | every toggle keeps the invariant and the number of players |
| GameOperations.ClaimThenUnclaimRestores | src/hooks/game/useGameOperations.ts:37-58 | in a consistent session, claiming a free region and unclaiming it restores the whole snapshot when the active player's score was their list's length |
| GameOperations.ToggleScoresCount | src/hooks/game/useGameOperations.ts:58 | the toggle scores the count of regions: spotting Ontario scores 1 although the catalog gives it 2 |
| GameOperations.NewGameResets | src/hooks/game/useGameOperations.ts:63-69 | a new game keeps ids, names and order, empties every list and score and the global list, and keeps the invariant |
| GameOperations.HandleToggleState | src/hooks/game/useGameOperations.ts:22-60 | the session cells end as `ToggleState` of the old snapshot |
| GameOperations.HandleNewGame | src/hooks/game/useGameOperations.ts:63-69 | the session cells end as `NewGame` of the old snapshot |
| AddPlayer.HighestId | src/hooks/player/operations/useAddPlayer.ts:39-40 | the reduce yields 0 or an existing id, and it is at least every id and 0 |
| AddPlayer.AddAtCapacity | src/hooks/player/operations/useAddPlayer.ts:25-32 | with six or more players, add changes nothing |
| AddPlayer.LocalAdd | src/hooks/player/operations/useAddPlayer.ts:35-66 | the local branch appends "Player n+1" with no regions, score 0 and an id above every existing id (1 for the first), makes it active only if the list was empty, keeps the global list and the game id, and keeps the invariant |
| AddPlayer.RemoteAdd | src/hooks/player/operations/useAddPlayer.ts:68-121 | a failed, thrown or empty insert changes nothing; a successful one appends "Player n+1" with the store's id, active only if the list was empty, keeps the global list and the game id, and keeps the invariant when that id is fresh |
| AddPlayer.HandleAddPlayer | src/hooks/player/operations/useAddPlayer.ts:20-122 | the session cells end as `AddPlayer` of the old snapshot |
| RemovePlayer.RemoveGuards | src/hooks/player/operations/useRemovePlayer.ts:29-47 | with one player or fewer, or an unknown id, nothing changes |
| RemovePlayer.RemoveOutcome | src/hooks/player/operations/useRemovePlayer.ts:51-118 | a failed or thrown delete of a stored player changes nothing; otherwise (local game, no store key, or successful delete) the player is dropped with the rest in order, their regions leave the global list, the active id falls back to the first remaining player, the game id is kept, and the invariant holds |
| RemovePlayer.RemoveLocally | src/hooks/player/operations/useRemovePlayer.ts:103-124 | the three cells end as `RemovePlayerLocally` of the old snapshot |
| RemovePlayer.HandleRemovePlayer | src/hooks/player/operations/useRemovePlayer.ts:25-100 | the session cells end as `RemovePlayer` of the old snapshot |
| PlayerNameOperations.NameChangeOutcome | src/hooks/player/operations/usePlayerNameOperations.ts:17-76 | in a local game or after a successful update only the matching player's name changes; a failed update or an unknown id changes nothing; the global list, the active id and the game id are kept; the invariant holds |
| PlayerNameOperations.HandleNameChange | src/hooks/player/operations/usePlayerNameOperations.ts:17-76 | the session cells end as `NameChange` of the old snapshot |
| PlayerOperations.NoGameIdNoChange | src/hooks/player/usePlayerOperations.ts:27-162 | without a game id, rename, add and remove change nothing |
| PlayerOperations.NameChangeOutcome | src/hooks/player/usePlayerOperations.ts:37-59 | a successful update renames only the matching player and keeps the global list, the active id and the game id; a failed one changes nothing; the invariant holds |
| PlayerOperations.AddOutcome | src/hooks/player/usePlayerOperations.ts:87-136 | add is refused at six players and on a failed insert; otherwise "Player n+1" with the store's id is appended, active only if the list was empty, with the global list and the game id kept, and the invariant holds when that id is fresh |
| PlayerOperations.RemoveOutcome | src/hooks/player/usePlayerOperations.ts:164-206 | remove is refused at one player and on a failed delete; otherwise the player is dropped with the rest in order, their regions leave the global list, the active id falls back to the first remaining player, the game id is kept, and the invariant holds |
| PlayerOperations.RemoveUnknownId | src/hooks/player/usePlayerOperations.ts:191-206 | after a successful delete with an id no player has, players and global list stay, but an active id equal to it moves to the first player |
| PlayerOperations.HandleNameChange | src/hooks/player/usePlayerOperations.ts:26-74 | the session cells end as `NameChange` of the old snapshot |
| PlayerOperations.HandleAddPlayer | src/hooks/player/usePlayerOperations.ts:76-151 | the session cells end as `AddPlayer` of the old snapshot |
| PlayerOperations.HandleRemovePlayer | src/hooks/player/usePlayerOperations.ts:153-221 | the session cells end as `RemovePlayer` of the old snapshot |
| GameLoadOperations.LoadedGameId | src/hooks/game/operations/useGameOperations.ts:9-44 | the store's id is used exactly when there is a usable user id and the query lists a game, and it is the first one |
| GameLoadOperations.CreatedGameId | src/hooks/game/operations/useGameOperations.ts:46-84 | the new id is used exactly when there is a usable user id and the insert answers with a row |
| GameLoadOperations.GameLoader.constructor | src/hooks/game/operations/useGameOperations.ts:7 | the game id cell starts at "mock-game-id" |
| GameLoadOperations.GameLoader.LoadExistingGame | src/hooks/game/operations/useGameOperations.ts:9-44 | returns the newest game's id and records it, or returns the sentinel with the cell unchanged |
| GameLoadOperations.GameLoader.CreateNewGame | src/hooks/game/operations/useGameOperations.ts:46-84 | returns the new game's id and records it, or returns the sentinel with the cell unchanged |
| GameLoadOperations.LookupOutcomes | src/hooks/game/operations/useGameOperations.ts:10-83 | both lookups return the sentinel without a user id, for the offline login, on an error, a throw or an empty answer, and the store's id otherwise |
| GameLoadOperations.NeverEmpty | src/hooks/game/operations/useGameOperations.ts:9-84 | neither lookup returns an empty id when the store's ids are non-empty |
| PlayerLoadOperations.FetchPlayers | src/hooks/game/operations/usePlayerOperations.ts:7-36 | null exactly for an empty game id, an error, a throw or no rows; otherwise the rows formatted, same length, in order |
| PlayerLoadOperations.CreateInitialPlayer | src/hooks/game/operations/usePlayerOperations.ts:38-72 | null exactly for an empty game id, an error, a throw or no row; otherwise "Player 1" with no regions, score 0 and the store's id |
| PlayerLoadOperations.SetDefaultPlayer | src/hooks/game/operations/usePlayerOperations.ts:74-88 | returns player 1 "Player 1" with no regions and score 0, and installs exactly that one-player list when given a cell |
| GameFetch.GameFetch.constructor | src/hooks/game/useGameFetch.ts:16-19 | loading starts true with no players and the sentinel game id |
| GameFetch.GameFetch.Start | src/hooks/game/useGameFetch.ts:21-28 | without a user the default player is installed; with one, the players are `LoadedPlayers`; loading ends in both cases |
| GameFetch.GameFetch.LoadOrCreateGame | src/hooks/game/useGameFetch.ts:30-73 | the players end as `LoadedPlayers` of the replies, the game id as `LoadedGameIdCell`, and loading is false |
| GameFetch.LoadedPlayersNonEmpty | src/hooks/game/useGameFetch.ts:40-66 | after loading the player list is never empty |
| GameFetch.LoadedPlayersOutcome | src/hooks/game/useGameFetch.ts:42-53 | stored players are installed as formatted; with none, the created first player; if that fails too, the default player |
| GameFetch.OfflineLogin | src/hooks/game/useGameFetch.ts:40-66 | the offline login never records a store game id and does not depend on the game query or the game insert |
| GameBoard.SortedStatesOutcome | src/components/game/GameBoard.tsx:18-25 | every catalog entry appears exactly once, marked spotted exactly when its id is in the global list, all other fields copied, spotted first and names ascending within each group |
| IndexPage.PageScore | src/pages/Index.tsx:12-13 | the displayed score lies between 0 and twice the list's length |
| IndexPage.IndexPage.constructor | src/pages/Index.tsx:11 | the page starts from the catalog |
| IndexPage.IndexPage.HandleToggleState | src/pages/Index.tsx:17-43 | the list cell ends as `ToggleSpotted` of the old list |
| IndexPage.ToggleSpottedOutcome | src/pages/Index.tsx:18-40 | a toggle flips `spotted` on the matching entries only, changes nothing else, and with an unknown id leaves the list unchanged |
| IndexPage.ToggleTwiceRestores | src/pages/Index.tsx:18-40 | toggling the same id twice restores the list |
| IndexPage.ToggleScore | src/pages/Index.tsx:12-42 | with distinct ids, toggling an entry adds its points to the score or takes them away |
| IndexPage.InitialScore | src/pages/Index.tsx:11-13 | the score of the untouched catalog is 0 |

## Left out

- Store calls, toasts and console logging. Each store reply is an input
  value. An insert that selects its row back is modelled as answering with
  the id the store assigned. The row's other fields are taken to be the
  values inserted: the given name, no regions and score 0.
- `parseInt` of store ids. A store-assigned id is an opaque integer, and
  NaN is not modelled.
- `getProgress` and other percentages and rounding, which are floating
  point.
- `localeCompare`. It is modelled as lexicographic order on character codes
  (`StateData.NameLe`).
- React timing. Each handler is one atomic transition from the snapshot it
  read. Re-renders, stale closures and interleaved async handlers are not
  modelled.
- The fetching hook's intermediate `isLoading := true`. Only the final
  `false` is stated.
- The catch-all of `loadOrCreateGame` in src/hooks/game/useGameFetch.ts. It
  is never reached, because every store call goes through a helper that
  catches its own errors, so it has no branch in the model.
- The no-op `setPlayers` in src/hooks/game/useGameState.ts.
- Authentication, mock users and presentation components.
- `Array.isArray(players)` guards. The player list is always a sequence
  here.
- The optional `path` field of a catalog entry. No entry sets it.
- StateData.SortStatesBySpotted: does not pin the order of entries that
  compare equal (same `spotted` flag and same name) to the browser's stable
  sort.
- IndexPage.ToggleSpotted: its own contract states only the length. The
  flip itself is stated by `IndexPage.ToggleSpottedOutcome` and
  `IndexPage.ToggleTwiceRestores`.
- No name-based score bonus exists in this code, so none is modelled.
