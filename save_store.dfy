/**
 * The saved-games list of js/local_storage_manager.js and the in-memory
 * `fakeStorage` it falls back to. The manager's store is modelled by the two
 * keys it reads and writes, already decoded: the list under "savedGames" and
 * the state under "gameState" (the JSON text in between is not modelled).
 */
module SaveStore {
  import opened Wrappers

  // ---------------------------------------------------------------------------
  // `fakeStorage`: a string-keyed object used when `localStorage` is missing.

  class FakeStorage {
    var data: map<string, string>

    constructor ()
      ensures data == map[]
    {
      data := map[];
    }

    /** `setItem`: stores the value (already a string) and returns it. */
    method SetItem(id: string, val: string) returns (r: string)
      modifies this
      ensures data == old(data)[id := val] && r == val
      ensures GetItem(id) == Some(val)
      ensures forall k :: k != id ==> GetItem(k) == old(GetItem(k))
    {
      data := data[id := val];
      r := val;
    }

    /** `getItem`: the stored string, or `null` when the key is absent. */
    function GetItem(id: string): (r: Option<string>)
      reads this
      ensures r.Some? <==> id in data
      ensures r.Some? ==> r.value == data[id]
    {
      if id in data then Some(data[id]) else None
    }

    /** `removeItem`: `delete` on an own data property, which reports true. */
    method RemoveItem(id: string) returns (r: bool)
      modifies this
      ensures data == old(data) - {id} && r
      ensures GetItem(id) == None
      ensures forall k :: k != id ==> GetItem(k) == old(GetItem(k))
    {
      data := data - {id};
      r := true;
    }

    /** `clear`: a fresh empty object. */
    method Clear()
      modifies this
      ensures data == map[]
    {
      data := map[];
    }
  }

  // ---------------------------------------------------------------------------
  // The saved state: only the part the manager looks at is spelled out.

  datatype Tile = Tile(value: int)
  /** `grid.cells[x][y]`: a tile or `null`; `cells` itself may be missing. */
  datatype SavedGrid = SavedGrid(size: int, cells: Option<seq<seq<Option<Tile>>>>)
  datatype GameState = GameState(grid: Option<SavedGrid>, score: int, over: bool, won: bool, keepPlaying: bool)

  /** One entry of the saved-games list. */
  datatype SavedGame = SavedGame(id: int, name: string, state: Option<GameState>, timestamp: int, maxScore: int)

  /** `maxSavedGames`. */
  const MAX_SAVED_GAMES := 10

  /** The cells of a state, when the state, its grid and its cells are all present. */
  function CellsOf(gameState: Option<GameState>): Option<seq<seq<Option<Tile>>>> {
    if gameState.Some? && gameState.value.grid.Some? then gameState.value.grid.value.cells else None
  }

  /** `value` is the value of a tile somewhere in `cells`. */
  ghost predicate InCells(cells: seq<seq<Option<Tile>>>, value: int) {
    exists x, y :: 0 <= x < |cells| && 0 <= y < |cells[x]| && cells[x][y] == Some(Tile(value))
  }

  /** Every tile of `cells` is at most `bound`. */
  predicate Bounds(cells: seq<seq<Option<Tile>>>, bound: int) {
    forall x, y :: 0 <= x < |cells| && 0 <= y < |cells[x]| && cells[x][y].Some? ==> cells[x][y].value.value <= bound
  }

  /** The largest tile value of the first `n` columns, and 0 when there is none larger. */
  function MaxTile(cells: seq<seq<Option<Tile>>>, n: int): int
    requires 0 <= n <= |cells|
  {
    if n == 0 then 0 else MaxColumn(cells[n - 1], |cells[n - 1]|, MaxTile(cells, n - 1))
  }

  /** `acc` raised to the largest tile among the first `n` cells of one column. */
  function MaxColumn(column: seq<Option<Tile>>, n: int, acc: int): int
    requires 0 <= n <= |column|
  {
    if n == 0 then acc
    else
      var m := MaxColumn(column, n - 1, acc);
      if column[n - 1].Some? && column[n - 1].value.value > m then column[n - 1].value.value else m
  }

  /** What `getMaxScoreFromState` returns for a state. */
  function MaxScore(gameState: Option<GameState>): int {
    var cells := CellsOf(gameState);
    if cells.None? then 0 else MaxTile(cells.value, |cells.value|)
  }

  lemma {:induction false} MaxColumnIsMax(column: seq<Option<Tile>>, n: int, acc: int)
    requires 0 <= n <= |column|
    ensures MaxColumn(column, n, acc) >= acc
    ensures forall y :: 0 <= y < n && column[y].Some? ==> column[y].value.value <= MaxColumn(column, n, acc)
    ensures MaxColumn(column, n, acc) == acc ||
            exists y :: 0 <= y < n && column[y] == Some(Tile(MaxColumn(column, n, acc)))
  {
    if n > 0 {
      MaxColumnIsMax(column, n - 1, acc);
    }
  }

  lemma {:induction false} MaxTileIsMax(cells: seq<seq<Option<Tile>>>, n: int)
    requires 0 <= n <= |cells|
    ensures MaxTile(cells, n) >= 0
    ensures Bounds(cells[..n], MaxTile(cells, n))
    ensures MaxTile(cells, n) == 0 || InCells(cells[..n], MaxTile(cells, n))
  {
    if n > 0 {
      MaxTileIsMax(cells, n - 1);
      var prev := MaxTile(cells, n - 1);
      var column := cells[n - 1];
      MaxColumnIsMax(column, |column|, prev);
      var m := MaxTile(cells, n);
      forall x, y | 0 <= x < n && 0 <= y < |cells[..n][x]| && cells[..n][x][y].Some?
        ensures cells[..n][x][y].value.value <= m
      {
        if x < n - 1 {
          assert cells[..n - 1][x] == cells[..n][x];
        }
      }
      if m != 0 {
        if m == prev {
          var x, y :| 0 <= x < n - 1 && 0 <= y < |cells[..n - 1][x]| && cells[..n - 1][x][y] == Some(Tile(m));
          assert cells[..n][x] == cells[..n - 1][x];
        } else {
          var y :| 0 <= y < |column| && column[y] == Some(Tile(m));
          assert cells[..n][n - 1] == column;
        }
      }
    }
  }

  /**
   * `getMaxScoreFromState` means what its name says: 0 without a grid or
   * cells; otherwise no tile is larger, and the result is 0 or some tile's value.
   */
  lemma MaxScoreIsMax(gameState: Option<GameState>)
    ensures CellsOf(gameState).None? ==> MaxScore(gameState) == 0
    ensures CellsOf(gameState).Some? ==>
      var cells := CellsOf(gameState).value;
      MaxScore(gameState) >= 0 && Bounds(cells, MaxScore(gameState)) &&
      (MaxScore(gameState) == 0 || InCells(cells, MaxScore(gameState)))
  {
    var cells := CellsOf(gameState);
    if cells.Some? {
      MaxTileIsMax(cells.value, |cells.value|);
      assert cells.value[..|cells.value|] == cells.value;
    }
  }

  // ---------------------------------------------------------------------------
  // The list operations as values.

  /** The index of the first entry called `name`, or -1 (the search loop of `saveGameWithName`). */
  function FirstNamed(games: seq<SavedGame>, name: string): (i: int)
    ensures -1 <= i < |games|
    ensures i >= 0 ==> games[i].name == name && forall j :: 0 <= j < i ==> games[j].name != name
    ensures i == -1 ==> forall j :: 0 <= j < |games| ==> games[j].name != name
  {
    if games == [] then -1
    else if games[0].name == name then 0
    else
      var k := FirstNamed(games[1..], name);
      if k == -1 then -1 else k + 1
  }

  /** The first entry with id `id`, if any (the search loop of `loadSavedGame`). */
  function FirstWithId(games: seq<SavedGame>, id: int): (e: Option<SavedGame>)
    ensures e.Some? ==> e.value in games && e.value.id == id
    ensures e.None? ==> forall j :: 0 <= j < |games| ==> games[j].id != id
  {
    if games == [] then None
    else if games[0].id == id then Some(games[0])
    else FirstWithId(games[1..], id)
  }

  lemma {:induction false} FirstWithIdIsFirst(games: seq<SavedGame>, id: int, j: int)
    requires 0 <= j < |games| && games[j].id == id && forall k :: 0 <= k < j ==> games[k].id != id
    ensures FirstWithId(games, id) == Some(games[j])
  {
    if j > 0 {
      FirstWithIdIsFirst(games[1..], id, j - 1);
    }
  }

  /** The entries whose id is not `id`, in their order (`deleteSavedGame`). */
  function WithoutId(games: seq<SavedGame>, id: int): (r: seq<SavedGame>)
    ensures |r| <= |games|
  {
    if games == [] then []
    else (if games[0].id != id then [games[0]] else []) + WithoutId(games[1..], id)
  }

  /** Deleting keeps exactly the entries with another id. */
  lemma {:induction false} WithoutIdMembers(games: seq<SavedGame>, id: int)
    ensures forall e :: e in WithoutId(games, id) <==> e in games && e.id != id
    ensures (forall j :: 0 <= j < |games| ==> games[j].id != id) ==> WithoutId(games, id) == games
  {
    if games != [] {
      WithoutIdMembers(games[1..], id);
      assert games == [games[0]] + games[1..];
    }
  }

  lemma WithoutIdSnoc(games: seq<SavedGame>, e: SavedGame, id: int)
    ensures WithoutId(games + [e], id) == WithoutId(games, id) + (if e.id != id then [e] else [])
  {
    if games == [] {
      assert [] + [e] == [e];
    } else {
      assert (games + [e])[1..] == games[1..] + [e];
      WithoutIdSnoc(games[1..], e, id);
    }
  }

  /** Ordered by timestamp, oldest first. */
  predicate ByTime(s: seq<SavedGame>) {
    forall i, j :: 0 <= i < j < |s| ==> s[i].timestamp <= s[j].timestamp
  }

  /** `x` placed after every entry of `s` that is not newer than it. */
  function InsertByTime(s: seq<SavedGame>, x: SavedGame): (r: seq<SavedGame>)
    ensures |r| == |s| + 1 && multiset(r) == multiset(s) + multiset{x}
  {
    if s == [] then [x]
    else if s[0].timestamp <= x.timestamp then
      assert s == [s[0]] + s[1..];
      [s[0]] + InsertByTime(s[1..], x)
    else [x] + s
  }

  /**
   * `Array.prototype.sort` with the comparator `a.timestamp - b.timestamp`:
   * a stable sort by timestamp, written as an insertion sort.
   */
  function SortByTime(s: seq<SavedGame>): (r: seq<SavedGame>)
    ensures |r| == |s| && multiset(r) == multiset(s)
  {
    if s == [] then []
    else
      assert s == s[..|s| - 1] + [s[|s| - 1]];
      InsertByTime(SortByTime(s[..|s| - 1]), s[|s| - 1])
  }

  lemma {:induction false} InsertKeepsOrder(s: seq<SavedGame>, x: SavedGame)
    requires ByTime(s)
    ensures ByTime(InsertByTime(s, x))
  {
    if s != [] && s[0].timestamp <= x.timestamp {
      InsertKeepsOrder(s[1..], x);
      var t := InsertByTime(s[1..], x);
      forall k | 0 <= k < |t| ensures s[0].timestamp <= t[k].timestamp {
        assert t[k] in multiset(t);
        assert t[k] in multiset(s[1..]) + multiset{x};
        if t[k] != x {
          assert t[k] in s[1..];
        }
      }
    }
  }

  /** The sort orders the entries by timestamp. */
  lemma {:induction false} SortByTimeSorted(s: seq<SavedGame>)
    ensures ByTime(SortByTime(s))
  {
    if s != [] {
      SortByTimeSorted(s[..|s| - 1]);
      InsertKeepsOrder(SortByTime(s[..|s| - 1]), s[|s| - 1]);
    }
  }

  /** The oldest entry: after the sort, the first entry's timestamp is the smallest. */
  lemma OldestFirst(s: seq<SavedGame>)
    requires s != []
    ensures SortByTime(s)[0] in s
    ensures forall j :: 0 <= j < |s| ==> SortByTime(s)[0].timestamp <= s[j].timestamp
  {
    var t := SortByTime(s);
    SortByTimeSorted(s);
    assert t[0] in multiset(s);
    forall j | 0 <= j < |s| ensures t[0].timestamp <= s[j].timestamp {
      assert s[j] in multiset(t);
      var k :| 0 <= k < |t| && t[k] == s[j];
    }
  }

  /** The entry `saveGameWithName` writes for a new name. */
  function NewEntry(gameState: Option<GameState>, name: string, timestamp: int): SavedGame {
    SavedGame(timestamp, name, gameState, timestamp, MaxScore(gameState))
  }

  /** The list after `saveGameWithName(gameState, name)` at time `timestamp`. */
  function Saved(games: seq<SavedGame>, gameState: Option<GameState>, name: string, timestamp: int): seq<SavedGame> {
    var i := FirstNamed(games, name);
    if i >= 0 then games[i := SavedGame(games[i].id, name, gameState, timestamp, MaxScore(gameState))]
    else if |games| >= MAX_SAVED_GAMES then SortByTime(games)[1..] + [NewEntry(gameState, name, timestamp)]
    else games + [NewEntry(gameState, name, timestamp)]
  }

  /** Saving under a known name keeps the entry's place and id and gives it the new state and time. */
  lemma SavedOverwrites(games: seq<SavedGame>, gameState: Option<GameState>, name: string, timestamp: int)
    requires FirstNamed(games, name) >= 0
    ensures var r := Saved(games, gameState, name, timestamp);
      var i := FirstNamed(games, name);
      |r| == |games| && r[i].id == games[i].id && r[i].name == name && r[i].state == gameState &&
      r[i].timestamp == timestamp && r[i].maxScore == MaxScore(gameState) &&
      forall j :: 0 <= j < |games| && j != i ==> r[j] == games[j]
  {
  }

  /** Saving under a new name into a list with room appends an entry whose id is its timestamp. */
  lemma SavedAppends(games: seq<SavedGame>, gameState: Option<GameState>, name: string, timestamp: int)
    requires FirstNamed(games, name) < 0 && |games| < MAX_SAVED_GAMES
    ensures Saved(games, gameState, name, timestamp) == games + [NewEntry(gameState, name, timestamp)]
    ensures NewEntry(gameState, name, timestamp).id == timestamp
  {
  }

  /**
   * Saving under a new name into a full list first drops one oldest entry
   * (one with the smallest timestamp), so the length stays the same.
   */
  lemma SavedEvicts(games: seq<SavedGame>, gameState: Option<GameState>, name: string, timestamp: int)
    requires FirstNamed(games, name) < 0 && |games| >= MAX_SAVED_GAMES
    ensures var r := Saved(games, gameState, name, timestamp);
      |r| == |games| && r[|r| - 1] == NewEntry(gameState, name, timestamp) &&
      exists k :: 0 <= k < |games| &&
        (forall j :: 0 <= j < |games| ==> games[k].timestamp <= games[j].timestamp) &&
        multiset(r[..|r| - 1]) == multiset(games) - multiset{games[k]}
  {
    var r := Saved(games, gameState, name, timestamp);
    var t := SortByTime(games);
    OldestFirst(games);
    var k :| 0 <= k < |games| && games[k] == t[0];
    assert t == [t[0]] + t[1..];
    assert multiset(t[1..]) == multiset(games) - multiset{games[k]};
    assert r[..|r| - 1] == t[1..];
  }

  /** The list never grows past `MAX_SAVED_GAMES` once it is within it. */
  lemma SavedBounded(games: seq<SavedGame>, gameState: Option<GameState>, name: string, timestamp: int)
    requires |games| <= MAX_SAVED_GAMES
    ensures |Saved(games, gameState, name, timestamp)| <= MAX_SAVED_GAMES
  {
  }

  // ---------------------------------------------------------------------------
  // The manager.

  class LocalStorageManager {
    /** The list stored under "savedGames" (an absent key reads as the empty list). */
    var savedGames: seq<SavedGame>
    /** The state stored under "gameState". */
    var gameState: Option<GameState>

    /**
     * The manager over a store that already holds `stored` under "savedGames"
     * and `current` under "gameState": the constructor only chooses the
     * store, so whatever `localStorage` or the shared `fakeStorage` holds is
     * what the manager sees.
     */
    constructor (stored: seq<SavedGame>, current: Option<GameState>)
      ensures savedGames == stored && gameState == current
    {
      savedGames := stored;
      gameState := current;
    }

    /** `getMaxScoreFromState`: the nested loops over the columns and their cells. */
    static method GetMaxScoreFromState(gameState: Option<GameState>) returns (maxTile: int)
      ensures maxTile == MaxScore(gameState)
    {
      if gameState.None? || gameState.value.grid.None? || gameState.value.grid.value.cells.None? {
        return 0;
      }
      var cells := gameState.value.grid.value.cells.value;
      maxTile := 0;
      for x := 0 to |cells|
        invariant maxTile == MaxTile(cells, x)
      {
        ghost var before := maxTile;
        for y := 0 to |cells[x]|
          invariant maxTile == MaxColumn(cells[x], y, before)
        {
          if cells[x][y].Some? && cells[x][y].value.value > maxTile {
            maxTile := cells[x][y].value.value;
          }
        }
      }
    }

    /** `saveGameWithName` at time `timestamp` (`Date.now()`); it always reports success. */
    method SaveGameWithName(state: Option<GameState>, name: string, timestamp: int) returns (ok: bool)
      modifies this
      ensures savedGames == Saved(old(savedGames), state, name, timestamp)
      ensures gameState == old(gameState) && ok
    {
      var games := savedGames;
      var maxScore := GetMaxScoreFromState(state);

      var sameNameIndex := -1;
      var i := 0;
      while i < |games|
        invariant 0 <= i <= |games| && -1 <= sameNameIndex < |games|
        invariant sameNameIndex == -1 ==> forall j :: 0 <= j < i ==> games[j].name != name
        invariant sameNameIndex != -1 ==> sameNameIndex == FirstNamed(games, name)
        decreases |games| - i
      {
        if games[i].name == name {
          sameNameIndex := i;
          break;
        }
        i := i + 1;
      }
      if sameNameIndex == -1 {
        assert FirstNamed(games, name) == -1;
      }

      if sameNameIndex != -1 {
        games := games[sameNameIndex := SavedGame(games[sameNameIndex].id, name, state, timestamp, maxScore)];
      } else {
        var newSavedGame := SavedGame(timestamp, name, state, timestamp, maxScore);
        if |games| >= MAX_SAVED_GAMES {
          games := SortByTime(games);
          games := games[1..];
        }
        games := games + [newSavedGame];
      }

      savedGames := games;
      ok := true;
    }

    /**
     * `loadSavedGame`: the state of the first entry with this id; when it is
     * there, it also becomes the stored game state.
     */
    method LoadSavedGame(id: int) returns (r: Option<GameState>)
      modifies this
      ensures savedGames == old(savedGames)
      ensures var e := FirstWithId(old(savedGames), id);
              r == (if e.Some? then e.value.state else None)
      ensures gameState == (if r.Some? then r else old(gameState))
    {
      var games := savedGames;
      var gameToLoad: Option<GameState> := None;
      var i := 0;
      while i < |games|
        invariant 0 <= i <= |games|
        invariant forall j :: 0 <= j < i ==> games[j].id != id
        invariant gameToLoad == None
        decreases |games| - i
      {
        if games[i].id == id {
          FirstWithIdIsFirst(games, id, i);
          gameToLoad := games[i].state;
          break;
        }
        i := i + 1;
      }
      if gameToLoad.Some? {
        gameState := gameToLoad;
        return gameToLoad;
      }
      return None;
    }

    /** `deleteSavedGame`: keeps the entries with another id, in order, stores and returns them. */
    method DeleteSavedGame(id: int) returns (newSavedGames: seq<SavedGame>)
      modifies this
      ensures newSavedGames == WithoutId(old(savedGames), id) && savedGames == newSavedGames
      ensures gameState == old(gameState)
    {
      var games := savedGames;
      newSavedGames := [];
      for i := 0 to |games|
        invariant newSavedGames == WithoutId(games[..i], id)
        invariant savedGames == games && gameState == old(gameState)
      {
        WithoutIdSnoc(games[..i], games[i], id);
        assert games[..i + 1] == games[..i] + [games[i]];
        if games[i].id != id {
          newSavedGames := newSavedGames + [games[i]];
        }
      }
      assert games[..|games|] == games;
      savedGames := newSavedGames;
    }
  }
}
