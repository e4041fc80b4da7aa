/** Actor policies: how the player turns key state into a target position,
    and how an enemy picks a direction to seek the player or patrol. */
module Policy {
  import opened Common
  import opened Geometry
  import opened Entities

  /** `key_down` state of the eight movement keys. */
  datatype Keys = Keys(right: bool, d: bool, left: bool, a: bool, up: bool, w: bool, down: bool, s: bool)

  const NoKeys: Keys := Keys(false, false, false, false, false, false, false, false)

  predicate RightHeld(k: Keys) { k.right || k.d }
  predicate LeftHeld(k: Keys) { k.left || k.a }
  predicate UpHeld(k: Keys) { k.up || k.w }
  predicate DownHeld(k: Keys) { k.down || k.s }

  /** The player's target x: one tile right if right/d is held, else one tile
      left if left/a is held, else unchanged. */
  function TargetX(k: Keys, x: int): (tx: int)
    ensures RightHeld(k) ==> tx == x + TileWidth
    ensures !RightHeld(k) && LeftHeld(k) ==> tx == x - TileWidth
    ensures !RightHeld(k) && !LeftHeld(k) ==> tx == x
  {
    if RightHeld(k) then x + TileWidth
    else if LeftHeld(k) then x - TileWidth
    else x
  }

  /** The player's target y: up is +y and wins over down. */
  function TargetY(k: Keys, y: int): (ty: int)
    ensures UpHeld(k) ==> ty == y + TileHeight
    ensures !UpHeld(k) && DownHeld(k) ==> ty == y - TileHeight
    ensures !UpHeld(k) && !DownHeld(k) ==> ty == y
  {
    if UpHeld(k) then y + TileHeight
    else if DownHeld(k) then y - TileHeight
    else y
  }

  /** `tick`'s target computation: the two axes independently. */
  function PlayerTarget(k: Keys, x: int, y: int): (r: (int, int))
    ensures r == (TargetX(k, x), TargetY(k, y))
  {
    (TargetX(k, x), TargetY(k, y))
  }

  /** The target differs from the position exactly when some movement key is
      held; each axis moves at most one tile, and a horizontal and a vertical
      key together give a diagonal step. */
  lemma TargetMovesIffKeyHeld(k: Keys, x: int, y: int)
    ensures var t := PlayerTarget(k, x, y);
      (t != (x, y)) <==> (RightHeld(k) || LeftHeld(k) || UpHeld(k) || DownHeld(k))
    ensures var t := PlayerTarget(k, x, y);
      (t.0 - x == 0 || t.0 - x == TileWidth || t.0 - x == -TileWidth) &&
      (t.1 - y == 0 || t.1 - y == TileHeight || t.1 - y == -TileHeight)
    ensures RightHeld(k) && UpHeld(k) ==> PlayerTarget(k, x, y) == (x + TileWidth, y + TileHeight)
  {
  }

  /** The earliest player `tick`: each held key shifts the position directly,
      with no collision or bounds check, so opposite keys cancel. */
  function DirectStep(k: Keys, x: int, y: int): (r: (int, int))
    ensures r.0 == x + (if RightHeld(k) then TileWidth else 0) - (if LeftHeld(k) then TileWidth else 0)
    ensures r.1 == y + (if UpHeld(k) then TileHeight else 0) - (if DownHeld(k) then TileHeight else 0)
  {
    var y1 := if UpHeld(k) then y + TileHeight else y;
    var y2 := if DownHeld(k) then y1 - TileHeight else y1;
    var x1 := if RightHeld(k) then x + TileWidth else x;
    var x2 := if LeftHeld(k) then x1 - TileWidth else x1;
    (x2, y2)
  }

  /** The direct step and the later target agree unless opposite keys are held
      together; then the direct step cancels while the target takes right (or
      up). */
  lemma DirectStepVersusTarget(k: Keys, x: int, y: int)
    ensures !(RightHeld(k) && LeftHeld(k)) ==> DirectStep(k, x, y).0 == PlayerTarget(k, x, y).0
    ensures !(UpHeld(k) && DownHeld(k)) ==> DirectStep(k, x, y).1 == PlayerTarget(k, x, y).1
    ensures RightHeld(k) && LeftHeld(k) ==>
      DirectStep(k, x, y).0 == x && PlayerTarget(k, x, y).0 == x + TileWidth
    ensures UpHeld(k) && DownHeld(k) ==>
      DirectStep(k, x, y).1 == y && PlayerTarget(k, x, y).1 == y + TileHeight
  {
  }

  /** The four symbols `move_towards` understands. */
  datatype Direction = Up | Down | Left | Right

  /** `patrol`'s candidates, in the source's order. */
  const PatrolDirections: seq<Direction> := [Up, Down, Left, Right]

  /** `seek_player`'s candidates: each direction that closes the gap on its
      axis, in the order left, right, up, down. */
  function SeekDirections(e: Entity, player: Entity): (r: seq<Direction>)
    ensures Left in r <==> player.mapX < e.mapX
    ensures Right in r <==> player.mapX > e.mapX
    ensures Up in r <==> player.mapY > e.mapY
    ensures Down in r <==> player.mapY < e.mapY
    ensures |r| <= 2
  {
    (if player.mapX < e.mapX then [Left] else []) +
    (if player.mapX > e.mapX then [Right] else []) +
    (if player.mapY > e.mapY then [Up] else []) +
    (if player.mapY < e.mapY then [Down] else [])
  }

  /** `move_towards`: one tile along one axis (up is +y); the nil direction
      of an empty sample targets the current position. */
  function MoveTowards(x: int, y: int, dir: Option<Direction>): (r: (int, int))
    ensures dir.None? ==> r == (x, y)
    ensures dir == Some(Up) ==> r == (x, y + TileHeight)
    ensures dir == Some(Down) ==> r == (x, y - TileHeight)
    ensures dir == Some(Left) ==> r == (x - TileWidth, y)
    ensures dir == Some(Right) ==> r == (x + TileWidth, y)
  {
    match dir
    case None => (x, y)
    case Some(Up) => (x, y + TileHeight)
    case Some(Down) => (x, y - TileHeight)
    case Some(Left) => (x - TileWidth, y)
    case Some(Right) => (x + TileWidth, y)
  }

  /** `act`: seek when the player is within sight, else patrol. `pick` is the
      oracle for `sample`. */
  function EnemyDirection(e: Entity, player: Entity, pick: nat): (r: Option<Direction>)
    ensures Sees(e, player) ==> r == Sample(SeekDirections(e, player), pick)
    ensures !Sees(e, player) ==> r.Some? && r.value in PatrolDirections
  {
    if Sees(e, player) then Sample(SeekDirections(e, player), pick)
    else Sample(PatrolDirections, pick)
  }

  /** A position on the tile lattice: what spawning at a tile and moving by
      whole tiles keep. */
  predicate OnLattice(x: int, y: int) {
    x % TileWidth == 0 && y % TileHeight == 0
  }

  /** Every seek direction closes the Manhattan gap to the player by exactly
      one tile when both stand on the lattice. */
  lemma SeekStepCloses(e: Entity, player: Entity, d: Direction)
    requires OnLattice(e.mapX, e.mapY) && OnLattice(player.mapX, player.mapY)
    requires d in SeekDirections(e, player)
    ensures var t := MoveTowards(e.mapX, e.mapY, Some(d));
      Abs(player.mapX - t.0) + Abs(player.mapY - t.1) ==
      Abs(player.mapX - e.mapX) + Abs(player.mapY - e.mapY) - TileWidth
  {
    if d == Left || d == Right {
      LatticeGap(player.mapX, e.mapX);
    } else {
      LatticeGap(player.mapY, e.mapY);
    }
  }

  /** Two lattice coordinates that differ are at least a tile apart. */
  lemma LatticeGap(a: int, b: int)
    requires a % TileWidth == 0 && b % TileWidth == 0 && a != b
    ensures Abs(a - b) >= TileWidth
  {
    var qa := a / TileWidth;
    var qb := b / TileWidth;
    assert a == qa * TileWidth && b == qb * TileWidth;
    assert a - b == (qa - qb) * TileWidth;
    if qa - qb >= 1 {
      assert (qa - qb) * TileWidth >= TileWidth;
    } else {
      assert qa - qb <= -1;
      assert (qa - qb) * TileWidth <= -TileWidth;
    }
  }

  /** The seek set is empty exactly when the enemy stands on the player. */
  lemma SeekEmptyIffSamePosition(e: Entity, player: Entity)
    ensures |SeekDirections(e, player)| == 0 <==> (e.mapX == player.mapX && e.mapY == player.mapY)
  {
  }

  /** Moving by a whole tile keeps a position on the lattice. */
  lemma StepStaysOnLattice(x: int, y: int, dir: Option<Direction>)
    requires OnLattice(x, y)
    ensures var t := MoveTowards(x, y, dir); OnLattice(t.0, t.1)
  {
  }
}
