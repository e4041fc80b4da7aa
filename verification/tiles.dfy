/** The tile grid: Wall and Floor tiles, the map generator and the map
    queries (`tile_at`, `blocked?`, `tile_occupant`). */
module Tiles {
  import opened Common
  import opened Geometry

  /** A Wall has no occupant slot; a Floor has one, holding at most one entity. */
  datatype Terrain = Wall | Floor(occupant: Option<EntityId>)

  /** A tile knows its world position and size (`tile_for`) and its terrain. */
  datatype Tile = Tile(mapX: int, mapY: int, w: int, h: int, terrain: Terrain)

  /** The non-blocking default every entity inherits from `Base`. */
  const BaseBlocking: bool := false

  /** Occupant slots are only ever filled by mobile entities (the `Occupant`
      behaviour lives on `MobileEntity`), whose `blocking?` is always true. */
  const OccupantBlocking: bool := true

  /** `blocking?` of a tile: a Wall always blocks; a Floor blocks when its
      occupant blocks, and otherwise falls back to the `Base` default. So a
      floor blocks exactly when something is bound to it. */
  function Blocking(t: Tile): (b: bool)
    ensures b <==> t.terrain.Wall? || t.terrain.occupant.Some?
  {
    match t.terrain
    case Wall => true
    case Floor(occ) => (occ.Some? && OccupantBlocking) || BaseBlocking
  }

  /** `map.tiles`, indexed `tiles[tile_x][tile_y]`. */
  type Grid = seq<seq<Tile>>

  predicate WellFormed(g: Grid) {
    |g| == MapWidth && forall x :: 0 <= x < |g| ==> |g[x]| == MapHeight
  }

  predicate IsFloor(g: Grid, c: Coord)
    requires WellFormed(g)
  {
    InBounds(c) && g[c.tx][c.ty].terrain.Floor?
  }

  /** `tile_at`: none outside the map, else the stored tile. */
  function TileAt(g: Grid, tx: int, ty: int): (r: Option<Tile>)
    requires WellFormed(g)
    ensures r.None? <==> (tx < 0 || tx > MapWidth - 1 || ty < 0 || ty > MapHeight - 1)
    ensures r.Some? ==> r.value == g[tx][ty]
  {
    if tx < 0 || tx > MapWidth - 1 then None
    else if ty < 0 || ty > MapHeight - 1 then None
    else Some(g[tx][ty])
  }

  /** `blocked?`: a missing tile is treated as blocked, so the query fails
      closed outside the map. */
  function Blocked(g: Grid, tx: int, ty: int): (b: bool)
    requires WellFormed(g)
    ensures !InBounds(Coord(tx, ty)) ==> b
    ensures InBounds(Coord(tx, ty)) ==> (b <==> Blocking(g[tx][ty]))
  {
    match TileAt(g, tx, ty)
    case None => true
    case Some(t) => Blocking(t)
  }

  /** A tile that is not blocked is an in-map, unoccupied floor: the only
      kind of tile an entity may step onto. */
  lemma UnblockedIsFreeFloor(g: Grid, c: Coord)
    requires WellFormed(g)
    requires !Blocked(g, c.tx, c.ty)
    ensures IsFloor(g, c)
    ensures g[c.tx][c.ty].terrain.occupant.None?
  {
  }

  /** `tile_occupant`: none outside the map and on walls (which have no
      occupant slot), else the floor's occupant. */
  function TileOccupant(g: Grid, c: Coord): (r: Option<EntityId>)
    requires WellFormed(g)
    ensures r.Some? ==> IsFloor(g, c) && g[c.tx][c.ty].terrain == Floor(r)
    ensures IsFloor(g, c) ==> r == g[c.tx][c.ty].terrain.occupant
  {
    match TileAt(g, c.tx, c.ty)
    case None => None
    case Some(t) => if t.terrain.Floor? then t.terrain.occupant else None
  }

  /** An occupied tile is always reported blocked, so a move never lands on
      another entity's tile. */
  lemma OccupiedIsBlocked(g: Grid, c: Coord)
    requires WellFormed(g)
    requires TileOccupant(g, c).Some?
    ensures Blocked(g, c.tx, c.ty)
  {
  }

  /** Assigning a floor's `occupant` slot; a wall or a missing tile has no
      slot and is left alone. Nothing else on the grid changes. */
  function SetOccupant(g: Grid, c: Coord, occ: Option<EntityId>): (r: Grid)
    requires WellFormed(g)
    ensures WellFormed(r) && SameTerrain(g, r)
    ensures IsFloor(g, c) ==> TileOccupant(r, c) == occ
    ensures forall c' :: c' != c ==> TileOccupant(r, c') == TileOccupant(g, c')
  {
    if IsFloor(g, c) then
      var t := g[c.tx][c.ty];
      var r := g[c.tx := g[c.tx][c.ty := t.(terrain := Floor(occ))]];
      assert forall c' :: c' != c && InBounds(c') ==> r[c'.tx][c'.ty] == g[c'.tx][c'.ty];
      r
    else g
  }

  /** A tile with its occupant slot emptied: what survives a rebinding. */
  function Strip(t: Tile): Tile {
    t.(terrain := if t.terrain.Floor? then Floor(None) else Wall)
  }

  /** Two grids with the same tiles up to occupancy: terrain is never altered
      after the map is generated. */
  predicate SameTerrain(g: Grid, g': Grid) {
    WellFormed(g) && WellFormed(g') &&
    forall x, y :: 0 <= x < MapWidth && 0 <= y < MapHeight ==> Strip(g[x][y]) == Strip(g'[x][y])
  }

  lemma SameTerrainFloor(g: Grid, g': Grid, c: Coord)
    requires SameTerrain(g, g')
    ensures IsFloor(g, c) <==> IsFloor(g', c)
  {
    if InBounds(c) {
      assert Strip(g[c.tx][c.ty]) == Strip(g'[c.tx][c.ty]);
    }
  }

  lemma SameTerrainTransitive(g: Grid, g': Grid, g'': Grid)
    requires SameTerrain(g, g') && SameTerrain(g', g'')
    ensures SameTerrain(g, g'')
  {
  }

  /** `tile_for`: a tile of the given terrain and the standard size, placed at
      the corner of cell (tx, ty), so that its position converts back to
      that cell. */
  function TileFor(tx: int, ty: int, terrain: Terrain): (t: Tile)
    ensures MapXToTileX(t.mapX) == tx && MapYToTileY(t.mapY) == ty
    ensures t.w == TileWidth && t.h == TileHeight && t.terrain == terrain
  {
    var corner := TileOrigin(Coord(tx, ty));
    Tile(corner.0, corner.1, TileWidth, TileHeight, terrain)
  }

  predicate OnBorder(tx: int, ty: int) {
    ty == 0 || ty == MapHeight - 1 || tx == 0 || tx == MapWidth - 1
  }

  /** One draw of `(0..8).to_a.sample` per tile. */
  predicate SamplesShaped(samples: seq<seq<nat>>) {
    |samples| == MapWidth && forall x :: 0 <= x < MapWidth ==> |samples[x]| == MapHeight
  }

  /** `map_tiles`: border tiles are walls; an interior tile is a wall when
      its 0..8 draw is 0 (one chance in nine) and an empty floor otherwise. */
  function MapTiles(samples: seq<seq<nat>>): (g: Grid)
    requires SamplesShaped(samples)
    ensures WellFormed(g)
    ensures forall x, y :: 0 <= x < MapWidth && 0 <= y < MapHeight ==>
      g[x][y].mapX == x * TileWidth && g[x][y].mapY == y * TileHeight &&
      g[x][y].w == TileWidth && g[x][y].h == TileHeight
    ensures forall x, y :: 0 <= x < MapWidth && 0 <= y < MapHeight && OnBorder(x, y) ==>
      g[x][y].terrain.Wall?
    ensures forall x, y :: 0 <= x < MapWidth && 0 <= y < MapHeight && !OnBorder(x, y) ==>
      (g[x][y].terrain.Wall? <==> SampleRange(0, 8, samples[x][y]) == 0)
    ensures forall c :: TileOccupant(g, c).None?
  {
    seq(MapWidth, x requires 0 <= x < MapWidth =>
      seq(MapHeight, y requires 0 <= y < MapHeight =>
        if OnBorder(x, y) then TileFor(x, y, Wall)
        else if SampleRange(0, 8, samples[x][y]) == 0 then TileFor(x, y, Wall)
        else TileFor(x, y, Floor(None))))
  }

  /** The early, deterministic generator: a ring of walls around an all-floor
      interior. */
  function MapTilesWithoutRubble(): (g: Grid)
    ensures WellFormed(g)
    ensures forall x, y :: 0 <= x < MapWidth && 0 <= y < MapHeight ==>
      (g[x][y].terrain.Wall? <==> OnBorder(x, y))
  {
    seq(MapWidth, x requires 0 <= x < MapWidth =>
      seq(MapHeight, y requires 0 <= y < MapHeight =>
        if OnBorder(x, y) then TileFor(x, y, Wall) else TileFor(x, y, Floor(None))))
  }

  /** The deterministic generator is the random one whose every draw is
      non-zero. */
  lemma WithoutRubbleIsAllFloorDraws()
    ensures MapTilesWithoutRubble() == MapTiles(seq(MapWidth, _ => seq(MapHeight, _ => 1)))
  {
    var a := MapTilesWithoutRubble();
    var b := MapTiles(seq(MapWidth, _ => seq(MapHeight, _ => 1)));
    forall x | 0 <= x < MapWidth
      ensures a[x] == b[x]
    {
    }
  }

  /** `blocked?` of the earlier stage, which tests the bounds inline instead
      of going through `tile_at`. */
  function BlockedInline(g: Grid, tx: int, ty: int): bool
    requires WellFormed(g)
  {
    if tx < 0 || tx > MapWidth - 1 then true
    else if ty < 0 || ty > MapHeight - 1 then true
    else Blocking(g[tx][ty])
  }

  /** Both forms of the blocking query answer alike on every coordinate. */
  lemma BlockedInlineAgrees(g: Grid, tx: int, ty: int)
    requires WellFormed(g)
    ensures BlockedInline(g, tx, ty) == Blocked(g, tx, ty)
  {
  }
}
