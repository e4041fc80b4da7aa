/** The scrolling camera (`map.x`, `map.y`): the world offset of the visible
    play area, nudged one tile at a time to keep the player away from the
    edges of the view. */
module Camera {
  import opened Geometry

  datatype Camera = Camera(x: int, y: int)

  /** The player is kept at least 8 tiles from the left and right edges of
      the view and 6 tiles from the top and bottom. */
  const BufferX: int := 8 * TileWidth
  const BufferY: int := 6 * TileHeight

  const MinX: int := 0
  const MinY: int := 0

  /** The largest offset that still shows only map tiles. */
  function MaxX(viewWidth: int): int { MapWidth * TileWidth - viewWidth }
  function MaxY(viewHeight: int): int { MapHeight * TileHeight - viewHeight }

  /** `load_map` puts the camera at the map origin. */
  const Origin: Camera := Camera(MinX, MinY)

  predicate InRange(cam: Camera, viewWidth: int, viewHeight: int) {
    MinX <= cam.x <= MaxX(viewWidth) && MinY <= cam.y <= MaxY(viewHeight)
  }

  /** One axis of the camera tick. `offset` is the player's position relative
      to the camera: below `buffer` the camera backs off one step (never
      below 0); above `view - buffer` it advances one step (never beyond
      `max`); in between it stays. */
  function Follow(c: int, offset: int, buffer: int, view: int, step: int, max: int): (r: int)
    requires 0 < step && 0 <= max && buffer <= view - buffer
    ensures 0 <= c <= max ==> 0 <= r <= max
    ensures 0 <= c <= max ==> c - step <= r <= c + step
    ensures 0 <= c <= max && r < c ==> offset < buffer
    ensures 0 <= c <= max && r > c ==> offset > view - buffer
    ensures buffer <= offset <= view - buffer ==> r == c
    ensures offset < buffer && step <= c ==> r == c - step
    ensures offset > view - buffer && c + step <= max ==> r == c + step
  {
    if offset < buffer then
      if 0 < c - step then c - step else 0
    else if offset > view - buffer then
      if c + step < max then c + step else max
    else c
  }

  /** `MapController.tick` for a view of the given size. */
  function Step(cam: Camera, playerX: int, playerY: int, viewWidth: int, viewHeight: int): (r: Camera)
    requires 2 * BufferX <= viewWidth <= MapWidth * TileWidth
    requires 2 * BufferY <= viewHeight <= MapHeight * TileHeight
    ensures InRange(cam, viewWidth, viewHeight) ==> InRange(r, viewWidth, viewHeight)
  {
    Camera(
      Follow(cam.x, playerX - cam.x, BufferX, viewWidth, TileWidth, MaxX(viewWidth)),
      Follow(cam.y, playerY - cam.y, BufferY, viewHeight, TileHeight, MaxY(viewHeight)))
  }

  /** The camera of the current stage follows the 832x720 play area. */
  function Tick(cam: Camera, playerX: int, playerY: int): (r: Camera)
    ensures InRange(cam, PlayAreaWidth, PlayAreaHeight) ==> InRange(r, PlayAreaWidth, PlayAreaHeight)
  {
    Step(cam, playerX, playerY, PlayAreaWidth, PlayAreaHeight)
  }

  /** The earlier camera followed the whole 1280x720 screen. */
  function TickFullScreen(cam: Camera, playerX: int, playerY: int): (r: Camera)
    ensures InRange(cam, ScreenWidth, ScreenHeight) ==> InRange(r, ScreenWidth, ScreenHeight)
  {
    Step(cam, playerX, playerY, ScreenWidth, ScreenHeight)
  }

  /** A camera tick moves each axis by at most one tile, and only in the
      direction that brings the player back inside the buffer zone: the
      player's offset never moves further from the zone. */
  lemma StepMovesTowardZone(cam: Camera, px: int, py: int, vw: int, vh: int)
    requires 2 * BufferX <= vw <= MapWidth * TileWidth
    requires 2 * BufferY <= vh <= MapHeight * TileHeight
    requires InRange(cam, vw, vh)
    ensures var r := Step(cam, px, py, vw, vh);
      && -TileWidth <= r.x - cam.x <= TileWidth
      && -TileHeight <= r.y - cam.y <= TileHeight
      && (r.x < cam.x ==> px - cam.x < BufferX && px - r.x > px - cam.x)
      && (r.x > cam.x ==> px - cam.x > vw - BufferX && px - r.x < px - cam.x)
      && (r.y < cam.y ==> py - cam.y < BufferY && py - r.y > py - cam.y)
      && (r.y > cam.y ==> py - cam.y > vh - BufferY && py - r.y < py - cam.y)
      && (BufferX <= px - cam.x <= vw - BufferX ==> r.x == cam.x)
      && (BufferY <= py - cam.y <= vh - BufferY ==> r.y == cam.y)
  {
  }

  /** The origin `load_map` sets is in range for every view that fits on the
      map, so both the play-area camera and the earlier full-screen one start
      in range. */
  lemma OriginInRange(viewWidth: int, viewHeight: int)
    requires viewWidth <= MapWidth * TileWidth && viewHeight <= MapHeight * TileHeight
    ensures InRange(Origin, viewWidth, viewHeight)
  {
  }
}
