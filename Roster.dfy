/** The player-list computations that several handlers share, and the
    invariant a session is meant to keep: 1 to 6 players with distinct ids,
    an active id naming one of them, no region held by two players, and a
    global list holding, once each, exactly the regions some player holds. */
module Roster {

  import opened Types
  import opened Lists

  /** `players.find(p => p.id === id)`: the first player with that id. */
  function FindPlayer(players: seq<Player>, id: int): (r: Option<Player>)
    ensures r.None? <==> forall i :: 0 <= i < |players| ==> players[i].id != id
    ensures r.Some? ==> exists k :: 0 <= k < |players| && players[k] == r.value && r.value.id == id
                                    && forall j :: 0 <= j < k ==> players[j].id != id
  {
    Find(players, (p: Player) => p.id == id)
  }

  /** Some player has id `id`. */
  predicate HasPlayer(players: seq<Player>, id: int)
  {
    exists i :: 0 <= i < |players| && players[i].id == id
  }

  /** No two players share an id. */
  predicate UniqueIds(players: seq<Player>)
  {
    forall i, j :: 0 <= i < j < |players| ==> players[i].id != players[j].id
  }

  /** Some player holds region `x`. */
  predicate Holds(players: seq<Player>, x: RegionId)
  {
    exists i :: 0 <= i < |players| && x in players[i].states
  }

  /** The global list holds exactly the regions some player holds. */
  ghost predicate GlobalIsUnion(players: seq<Player>, global: seq<RegionId>)
  {
    forall x :: x in global <==> Holds(players, x)
  }

  /** No region is held by two different players. */
  ghost predicate DisjointClaims(players: seq<Player>)
  {
    forall i, j, x :: 0 <= i < |players| && 0 <= j < |players| && i != j && x in players[i].states
      ==> x !in players[j].states
  }

  /** The session invariant. */
  ghost predicate Consistent(g: GameState)
  {
    && 1 <= |g.players| <= MaxPlayers
    && UniqueIds(g.players)
    && HasPlayer(g.players, g.activePlayer)
    && GlobalIsUnion(g.players, g.globalSpottedStates)
    && NoDup(g.globalSpottedStates)
    && DisjointClaims(g.players)
  }

  /** With distinct ids, looking up a player's id finds that player. */
  lemma FindPlayerAt(players: seq<Player>, k: int)
    requires UniqueIds(players) && 0 <= k < |players|
    ensures FindPlayer(players, players[k].id) == Some(players[k])
  {
    var r := FindPlayer(players, players[k].id);
    var m :| 0 <= m < |players| && players[m] == r.value && r.value.id == players[k].id
             && forall j :: 0 <= j < m ==> players[j].id != players[k].id;
  }

  /** `players.map(p => p.id === id ? { ...p, name: newName } : p)`. */
  function RenamePlayer(players: seq<Player>, id: int, newName: string): (r: seq<Player>)
    ensures |r| == |players|
    ensures forall i :: 0 <= i < |r| ==>
      r[i] == if players[i].id == id then players[i].(name := newName) else players[i]
  {
    seq(|players|, i requires 0 <= i < |players| =>
      if players[i].id == id then players[i].(name := newName) else players[i])
  }

  /** Renaming changes no id and no claim, so it keeps the invariant; with
      an id no player has, it changes nothing at all. */
  lemma RenameKeepsClaims(g: GameState, id: int, newName: string)
    ensures var r := RenamePlayer(g.players, id, newName);
      && (forall i :: 0 <= i < |r| ==> r[i].id == g.players[i].id && r[i].states == g.players[i].states
                                       && r[i].score == g.players[i].score)
      && (Consistent(g) ==> Consistent(g.(players := r)))
      && (!HasPlayer(g.players, id) ==> r == g.players)
  {
    var r := RenamePlayer(g.players, id, newName);
    if Consistent(g) {
      var k :| 0 <= k < |g.players| && g.players[k].id == g.activePlayer;
    }
  }

  /** `players.filter(p => p.id !== id)`. */
  function WithoutPlayer(players: seq<Player>, id: int): (r: seq<Player>)
    ensures forall p :: p in r <==> p in players && p.id != id
    ensures (forall i :: 0 <= i < |players| ==> players[i].id != id) ==> r == players
  {
    if players == [] then []
    else if players[0].id == id then WithoutPlayer(players[1..], id)
    else [players[0]] + WithoutPlayer(players[1..], id)
  }

  /** The tail of a list with distinct ids has distinct ids, none of them
      the head's. */
  lemma UniqueIdsTail(players: seq<Player>)
    requires UniqueIds(players) && players != []
    ensures UniqueIds(players[1..])
    ensures forall i :: 0 <= i < |players| - 1 ==> players[1..][i].id != players[0].id
  {
    var tail := players[1..];
    forall i, j | 0 <= i < j < |tail| ensures tail[i].id != tail[j].id {
      assert tail[i] == players[i + 1] && tail[j] == players[j + 1];
    }
    forall i | 0 <= i < |tail| ensures tail[i].id != players[0].id {
      assert tail[i] == players[i + 1];
    }
  }

  /** The filter keeps a head with another id in front of the filtered tail. */
  lemma WithoutPlayerKeepsHead(players: seq<Player>, id: int)
    requires players != [] && players[0].id != id
    ensures WithoutPlayer(players, id) == [players[0]] + WithoutPlayer(players[1..], id)
  {
  }

  /** With distinct ids, dropping the first player by its id leaves the
      tail. */
  lemma WithoutFirstPlayer(players: seq<Player>)
    requires UniqueIds(players) && players != []
    ensures WithoutPlayer(players, players[0].id) == players[1..]
  {
    UniqueIdsTail(players);
  }

  /** Splitting off the head commutes with dropping index `k > 0`. */
  lemma DropAfterHead(players: seq<Player>, k: int)
    requires 0 < k < |players|
    ensures [players[0]] + (players[1..][..k - 1] + players[1..][k..]) == players[..k] + players[k + 1..]
  {
    assert [players[0]] + players[1..][..k - 1] == players[..k];
    assert players[1..][k..] == players[k + 1..];
  }

  /** With distinct ids, dropping the player at index `k` by its id leaves
      the others in their order. */
  lemma {:induction false} WithoutPlayerAt(players: seq<Player>, k: int)
    requires UniqueIds(players) && 0 <= k < |players|
    ensures WithoutPlayer(players, players[k].id) == players[..k] + players[k + 1..]
  {
    if k == 0 {
      WithoutFirstPlayer(players);
      assert players[..0] + players[1..] == players[1..];
    } else {
      var tail := players[1..];
      UniqueIdsTail(players);
      assert tail[k - 1] == players[k];
      WithoutPlayerKeepsHead(players, players[k].id);
      WithoutPlayerAt(tail, k - 1);
      DropAfterHead(players, k);
    }
  }

  /** `removePlayerLocally` (and the same code in the wired handler): drop
      the removed player's regions from the global list when the player was
      found, drop every player with that id, and hand the turn to the first
      remaining player if the removed one had it. */
  function RemovePlayerLocally(g: GameState, playerToRemove: Option<Player>, playerId: int): GameState
  {
    var global :=
      if playerToRemove.Some? then RemoveAll(g.globalSpottedStates, playerToRemove.value.states)
      else g.globalSpottedStates;
    var updatedPlayers := WithoutPlayer(g.players, playerId);
    var active :=
      if g.activePlayer == playerId && |updatedPlayers| > 0 then updatedPlayers[0].id
      else g.activePlayer;
    GameState(updatedPlayers, active, global, g.currentGameId)
  }

  /** Index `i` of a list with index `k` dropped is index `i` or `i + 1`
      of the original. */
  lemma DropIndex(ps: seq<Player>, k: int, rest: seq<Player>)
    requires 0 <= k < |ps| && rest == ps[..k] + ps[k + 1..]
    ensures |rest| == |ps| - 1
    ensures forall i :: 0 <= i < |rest| ==> rest[i] == ps[if i < k then i else i + 1]
  {
  }

  /** Dropping a player keeps ids distinct and claims disjoint. */
  lemma DropKeepsUniqueAndDisjoint(ps: seq<Player>, k: int)
    requires 0 <= k < |ps| && UniqueIds(ps) && DisjointClaims(ps)
    ensures UniqueIds(ps[..k] + ps[k + 1..]) && DisjointClaims(ps[..k] + ps[k + 1..])
  {
    var rest := ps[..k] + ps[k + 1..];
    DropIndex(ps, k, rest);
    forall i, j | 0 <= i < j < |rest| ensures rest[i].id != rest[j].id {
      assert rest[i] == ps[if i < k then i else i + 1];
      assert rest[j] == ps[if j < k then j else j + 1];
    }
    forall i, j, x | 0 <= i < |rest| && 0 <= j < |rest| && i != j && x in rest[i].states
      ensures x !in rest[j].states
    {
      assert rest[i] == ps[if i < k then i else i + 1];
      assert rest[j] == ps[if j < k then j else j + 1];
    }
  }

  /** Dropping the player at `k` and its regions from the global list keeps
      the global list the union of the claims, when claims are disjoint. */
  lemma DropKeepsUnion(ps: seq<Player>, k: int, global: seq<RegionId>)
    requires 0 <= k < |ps| && GlobalIsUnion(ps, global) && DisjointClaims(ps)
    ensures GlobalIsUnion(ps[..k] + ps[k + 1..], RemoveAll(global, ps[k].states))
  {
    var rest := ps[..k] + ps[k + 1..];
    var newGlobal := RemoveAll(global, ps[k].states);
    DropIndex(ps, k, rest);
    forall x ensures x in newGlobal <==> Holds(rest, x) {
      if x in newGlobal {
        assert Holds(ps, x) && x !in ps[k].states;
        var i :| 0 <= i < |ps| && x in ps[i].states;
        assert i != k;
        assert rest[if i < k then i else i - 1] == ps[i];
      }
      if Holds(rest, x) {
        var i :| 0 <= i < |rest| && x in rest[i].states;
        var oi := if i < k then i else i + 1;
        assert rest[i] == ps[oi] && oi != k;
        assert x in global && x !in ps[k].states;
      }
    }
  }

  /** Removing a player of a consistent session of two or more players
      leaves the others in order, re-derives the global list as the union of
      the remaining claims, and keeps the invariant. */
  lemma RemoveKeepsConsistent(g: GameState, k: int)
    requires Consistent(g) && |g.players| >= 2 && 0 <= k < |g.players|
    ensures var r := RemovePlayerLocally(g, Some(g.players[k]), g.players[k].id);
      && r.players == g.players[..k] + g.players[k + 1..]
      && GlobalIsUnion(r.players, r.globalSpottedStates)
      && Consistent(r)
  {
    var ps := g.players;
    var removed := ps[k];
    var r := RemovePlayerLocally(g, Some(removed), removed.id);
    WithoutPlayerAt(ps, k);
    var rest := ps[..k] + ps[k + 1..];
    assert r.players == rest;
    DropIndex(ps, k, rest);
    DropKeepsUniqueAndDisjoint(ps, k);
    DropKeepsUnion(ps, k, g.globalSpottedStates);
    assert HasPlayer(rest, r.activePlayer) by {
      if g.activePlayer == removed.id {
        assert r.activePlayer == rest[0].id;
      } else {
        var a :| 0 <= a < |ps| && ps[a].id == g.activePlayer;
        assert a != k;
        assert rest[if a < k then a else a - 1] == ps[a];
      }
    }
  }

  /** Appends `p` to the player list; it becomes active only if the list was
      empty (the end of both add-player handlers). */
  function AppendPlayer(g: GameState, p: Player): GameState
  {
    g.(players := g.players + [p],
       activePlayer := if |g.players| == 0 then p.id else g.activePlayer)
  }

  /** Appending a player with a fresh id and no claims to a consistent
      session below the cap keeps it consistent. */
  lemma AppendKeepsConsistent(g: GameState, p: Player)
    requires Consistent(g) && |g.players| < MaxPlayers
    requires p.states == [] && !HasPlayer(g.players, p.id)
    ensures Consistent(AppendPlayer(g, p))
  {
    var r := AppendPlayer(g, p);
    var ps := r.players;
    assert forall i :: 0 <= i < |g.players| ==> ps[i] == g.players[i];
    assert ps[|g.players|] == p;
    assert UniqueIds(ps) by {
      forall i, j | 0 <= i < j < |ps| ensures ps[i].id != ps[j].id {
        if j == |g.players| { assert ps[i] == g.players[i]; }
      }
    }
    assert GlobalIsUnion(ps, r.globalSpottedStates) by {
      forall x ensures x in r.globalSpottedStates <==> Holds(ps, x) {
        if Holds(g.players, x) {
          var i :| 0 <= i < |g.players| && x in g.players[i].states;
          assert ps[i] == g.players[i];
        }
        if Holds(ps, x) {
          var i :| 0 <= i < |ps| && x in ps[i].states;
          assert i < |g.players| && ps[i] == g.players[i];
        }
      }
    }
    var a :| 0 <= a < |g.players| && g.players[a].id == g.activePlayer;
    assert ps[a].id == r.activePlayer;
  }
}
