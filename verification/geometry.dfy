/** Fixed dimensions of the dungeon and the conversion between world
    coordinates (pixels) and tile coordinates. */
module Geometry {

  const TileWidth: int := 32
  const TileHeight: int := 32
  /** Entities are drawn one tile large; spawning multiplies by the sprite size. */
  const SpriteWidth: int := 32
  const SpriteHeight: int := 32

  /** The map is 80 columns of 45 tiles. */
  const MapWidth: int := 80
  const MapHeight: int := 45

  /** The screen is 1280 wide; the play area takes 832 of it and the event
      log's text area the rest. */
  const ScreenWidth: int := 1280
  const ScreenHeight: int := 720
  const PlayAreaWidth: int := 832
  const PlayAreaHeight: int := 720
  const TextAreaWidth: int := ScreenWidth - PlayAreaWidth

  /** A tile index pair: column `tx`, row `ty` (row 0 is the bottom). */
  datatype Coord = Coord(tx: int, ty: int)

  predicate InBounds(c: Coord) {
    0 <= c.tx < MapWidth && 0 <= c.ty < MapHeight
  }

  /** `map_x_to_tile_x`: the column whose 32-pixel strip contains `mapX`. */
  function MapXToTileX(mapX: int): (t: int)
    ensures t * TileWidth <= mapX < t * TileWidth + TileWidth
  {
    mapX / TileWidth
  }

  /** `map_y_to_tile_y`: the row whose 32-pixel strip contains `mapY`. */
  function MapYToTileY(mapY: int): (t: int)
    ensures t * TileHeight <= mapY < t * TileHeight + TileHeight
  {
    mapY / TileHeight
  }

  /** The conversion is floor division: every pixel of a tile's strip,
      including negative ones, maps back to that tile. */
  lemma TileRoundTrip(t: int, r: int)
    requires 0 <= r < TileWidth
    ensures MapXToTileX(t * TileWidth + r) == t
    ensures MapYToTileY(t * TileHeight + r) == t
  {
    var q := MapXToTileX(t * TileWidth + r);
    assert (q - t) * TileWidth <= r < (q - t) * TileWidth + TileWidth;
    var q' := MapYToTileY(t * TileHeight + r);
    assert (q' - t) * TileHeight <= r < (q' - t) * TileHeight + TileHeight;
  }

  /** The world position of a tile's lower-left corner (`tile_for`). */
  function TileOrigin(c: Coord): (p: (int, int))
    ensures MapXToTileX(p.0) == c.tx && MapYToTileY(p.1) == c.ty
  {
    TileRoundTrip(c.tx, 0);
    TileRoundTrip(c.ty, 0);
    (c.tx * TileWidth, c.ty * TileHeight)
  }

  /** `map_tile_y` converts with the x converter; the two converters agree
      because tiles are square. */
  lemma TileConvertersAgree(v: int)
    ensures MapXToTileX(v) == MapYToTileY(v)
  {
  }
}
