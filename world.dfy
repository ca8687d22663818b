/**
 * The read-only world snapshot the bot sees each turn (GATS `GameState`,
 * `GameCharacter`, `Tile`) and the conversion from world to tile coordinates.
 * World coordinates are libGDX floats; here they are exact reals.
 */
module World {
  import opened Wrappers

  /** A point or vector in world coordinates (libGDX `Vector2`). */
  datatype Vec = Vec(x: real, y: real)

  /** A grid cell (GATS `IntVector2`). */
  datatype Cell = Cell(x: int, y: int)

  /** Only `HEALTH_BOX` is told apart in the bot; every other tile type behaves as `Solid`. */
  datatype TileType = HealthBox | Solid

  datatype Character = Character(team: int, alive: bool, pos: Vec, health: int, stamina: int)

  /**
   * The board: `tiles` holds the cells that have a tile (`getTile` returns
   * null elsewhere); `teams[t][c]` is `getCharacterFromTeams(t, c)`, so the
   * team count is `|teams|`.
   */
  datatype GameState = GameState(
    boardSizeX: nat,
    boardSizeY: nat,
    tiles: map<Cell, TileType>,
    charactersPerTeam: nat,
    teams: seq<seq<Character>>)
  {
    /** Every team has `charactersPerTeam` characters. */
    predicate Valid() {
      forall t :: 0 <= t < |teams| ==> |teams[t]| == charactersPerTeam
    }

    function GetTile(c: Cell): Option<TileType> {
      if c in tiles then Some(tiles[c]) else None
    }
  }


  function Sub(p: Vec, q: Vec): Vec { Vec(p.x - q.x, p.y - q.y) }

  /** Java's `(int) (a / 16)`: division by the tile size, truncated toward zero. */
  function TruncDiv16(a: real): (r: int)
    ensures 0.0 <= a ==> 0 <= r && (16 * r) as real <= a < (16 * r + 16) as real
    ensures a < 0.0 ==> r <= 0 && (16 * r - 16) as real < a <= (16 * r) as real
  {
    if a >= 0.0 then (a / 16.0).Floor else -((-a) / 16.0).Floor
  }

  /** `worldToTileCoords`: the cell a world point falls in. */
  function WorldToTileCoords(p: Vec): Cell {
    Cell(TruncDiv16(p.x), TruncDiv16(p.y))
  }

  /** The world position of a cell's corner, `(16 x, 16 y)`, as `findHealthBoxes` reports it. */
  function TileToWorld(c: Cell): Vec {
    Vec((16 * c.x) as real, (16 * c.y) as real)
  }

  /** A cell's corner maps back to that cell. */
  lemma TileRoundTrip(c: Cell)
    ensures WorldToTileCoords(TileToWorld(c)) == c
  {
    TruncDivOfMultiple(c.x);
    TruncDivOfMultiple(c.y);
  }

  lemma TruncDivOfMultiple(k: int)
    ensures TruncDiv16((16 * k) as real) == k
  {
    var r := TruncDiv16((16 * k) as real);
    if k >= 0 {
      assert 16 * r <= 16 * k < 16 * r + 16;
    } else {
      assert 16 * r - 16 < 16 * k <= 16 * r;
    }
  }

  /** `getTileBelow`: the tile 16 world units (one tile height) under a point. */
  function TileBelow(gs: GameState, p: Vec): Option<TileType> {
    gs.GetTile(WorldToTileCoords(Vec(p.x, p.y - 16.0)))
  }

  /**
   * Away from the bottom row the tile below is the next row down; for
   * `0 < y < 16` truncation toward zero maps `y - 16` to row 0, the point's own row.
   */
  lemma TileBelowRow(p: Vec)
    ensures var below := WorldToTileCoords(Vec(p.x, p.y - 16.0));
            var here := WorldToTileCoords(p);
            below.x == here.x &&
            below.y == if 0.0 < p.y < 16.0 then here.y else here.y - 1
  {
    var a := TruncDiv16(p.y);
    var b := TruncDiv16(p.y - 16.0);
    if p.y >= 16.0 {
      assert 16 * a <= 16 * b + 16 < 16 * a + 16;
    } else if p.y <= 0.0 {
      assert 16 * a - 16 < 16 * b + 16 <= 16 * a;
    }
  }
}
