/** Movement of mobile entities: `spawn`, the free-tile search of
    `spawn_near`, and the move-or-attack arbitration. */
module Movement {
  import opened Common
  import opened Geometry
  import opened Tiles
  import opened Entities

  /** What one `move_or_attack` call did. The block passed to it runs exactly
      when the outcome is not `Idle`. */
  datatype Outcome = Moved | Attacked | Idle

  /** `other.faction != 'neutral' && other.faction != faction` */
  predicate Hostile(actor: Entity, other: Entity) {
    other.faction != Neutral && other.faction != actor.faction
  }

  /** The tile a target position falls in. */
  function TargetTile(targetX: int, targetY: int): (c: Coord)
    ensures c.tx * TileWidth <= targetX < c.tx * TileWidth + TileWidth
    ensures c.ty * TileHeight <= targetY < c.ty * TileHeight + TileHeight
  {
    Coord(MapXToTileX(targetX), MapYToTileY(targetY))
  }

  /** `move_or_attack`: an unblocked target tile is walked into; a blocked one
      is attacked only by an actor that can deal damage, and only when the
      tile holds a hostile occupant; otherwise nothing happens. `other` is the
      entity `tile_occupant` reports for the target tile. */
  function Decide(g: Grid, actor: Entity, targetX: int, targetY: int, other: Option<Entity>): (r: Outcome)
    requires WellFormed(g)
    ensures var c := TargetTile(targetX, targetY);
      r == Moved <==> !Blocked(g, c.tx, c.ty)
    ensures var c := TargetTile(targetX, targetY);
      r == Attacked <==>
        Blocked(g, c.tx, c.ty) && CanDealDamage(actor) && other.Some? && Hostile(actor, other.value)
  {
    var c := TargetTile(targetX, targetY);
    if Blocked(g, c.tx, c.ty) then
      if CanDealDamage(actor) && other.Some? && Hostile(actor, other.value) then Attacked else Idle
    else Moved
  }

  /** A move only ever enters a tile that exists, is a floor and is empty. */
  lemma MoveEntersFreeFloor(g: Grid, actor: Entity, targetX: int, targetY: int, other: Option<Entity>)
    requires WellFormed(g) && Decide(g, actor, targetX, targetY, other) == Moved
    ensures var c := TargetTile(targetX, targetY);
      IsFloor(g, c) && TileOccupant(g, c).None?
  {
    var c := TargetTile(targetX, targetY);
    UnblockedIsFreeFloor(g, c);
  }

  /** A friendly or neutral occupant is never attacked, and an entity with no
      attack never attacks anything. */
  lemma NoAttackOnFriendOrNeutral(g: Grid, actor: Entity, targetX: int, targetY: int, other: Option<Entity>)
    requires WellFormed(g)
    requires !CanDealDamage(actor) || other.None? || other.value.faction == Neutral ||
             other.value.faction == actor.faction
    ensures Decide(g, actor, targetX, targetY, other) != Attacked
  {
  }

  /** `attempt_move`: the arbitration before combat existed. A blocked target
      means an early return. */
  function DecideMoveOnly(g: Grid, targetX: int, targetY: int): (r: Outcome)
    requires WellFormed(g)
    ensures r != Attacked
  {
    var c := TargetTile(targetX, targetY);
    if Blocked(g, c.tx, c.ty) then Idle else Moved
  }

  /** `attempt_move` is `move_or_attack` for an actor without `deal_damage`,
      whatever occupies the target. */
  lemma AttemptMoveIsMoveOnlyCase(g: Grid, actor: Entity, targetX: int, targetY: int, other: Option<Entity>)
    requires WellFormed(g) && !CanDealDamage(actor)
    ensures Decide(g, actor, targetX, targetY, other) == DecideMoveOnly(g, targetX, targetY)
  {
  }

  /** The result of the free-tile search. `OffGrid` is a probe outside the
      map, where the source would index past its arrays; `Exhausted` is the
      draws running out before a free tile turned up. */
  datatype SpawnResult = Found(tx: int, ty: int) | Exhausted | OffGrid

  /** The search counters after one failed probe: the radius grows by one
      once `radius * 8` probes at that radius have failed. */
  function NextCounters(radius: nat, attempt: nat): (r: (nat, nat))
    ensures r.0 == radius || (r.0 == radius + 1 && r.1 == 0)
  {
    if attempt + 1 >= radius * 8 then (radius + 1, 0) else (radius, attempt + 1)
  }

  /** The counters after `n` failed probes. */
  function CountersAfter(radius: nat, attempt: nat, n: nat): (nat, nat)
    decreases n
  {
    if n == 0 then (radius, attempt)
    else
      var next := NextCounters(radius, attempt);
      CountersAfter(next.0, next.1, n - 1)
  }

  /** At radius r the search makes 8r probes, then moves to radius r + 1. */
  lemma {:induction false} RadiusGrowsAfterFullRound(radius: nat, attempt: nat, n: nat)
    requires radius >= 1 && attempt + n <= 8 * radius
    ensures attempt + n < 8 * radius ==> CountersAfter(radius, attempt, n) == (radius, attempt + n)
    ensures attempt + n == 8 * radius && n > 0 ==> CountersAfter(radius, attempt, n) == (radius + 1, 0)
    decreases n
  {
    if n > 0 {
      var next := NextCounters(radius, attempt);
      if attempt + 1 < 8 * radius {
        assert next == (radius, attempt + 1);
        RadiusGrowsAfterFullRound(radius, attempt + 1, n - 1);
      } else {
        assert n == 1 && next == (radius + 1, 0);
      }
    }
  }

  /** `spawn_near`'s loop from a given point and counters: while the probed
      tile blocks, draw a new point within `radius` of the current one on each
      axis. Each draw is a pair of oracle picks. */
  function SpawnSearch(g: Grid, x: int, y: int, radius: nat, attempt: nat, draws: seq<(nat, nat)>): (r: SpawnResult)
    requires WellFormed(g)
    decreases |draws|
    ensures r.Found? ==> InBounds(Coord(r.tx, r.ty)) && !Blocked(g, r.tx, r.ty)
    ensures InBounds(Coord(x, y)) && !Blocked(g, x, y) ==> r == Found(x, y)
    ensures !InBounds(Coord(x, y)) ==> r == OffGrid
    ensures !r.Found? ==> Blocked(g, x, y)
    ensures r == Exhausted ==> InBounds(Coord(x, y))
  {
    if !InBounds(Coord(x, y)) then OffGrid
    else if !Blocked(g, x, y) then Found(x, y)
    else if |draws| == 0 then Exhausted
    else
      var nx := SampleRange(x - radius, x + radius, draws[0].0);
      var ny := SampleRange(y - radius, y + radius, draws[0].1);
      var next := NextCounters(radius, attempt);
      SpawnSearch(g, nx, ny, next.0, next.1, draws[1..])
  }

  /** `spawn_near(x, y)`: the search starts at radius 1 with no attempts. */
  function SpawnNear(g: Grid, x: int, y: int, draws: seq<(nat, nat)>): (r: SpawnResult)
    requires WellFormed(g)
    ensures r.Found? ==> IsFloor(g, Coord(r.tx, r.ty)) && TileOccupant(g, Coord(r.tx, r.ty)).None?
    ensures InBounds(Coord(x, y)) && !Blocked(g, x, y) ==> r == Found(x, y)
  {
    var r := SpawnSearch(g, x, y, 1, 0, draws);
    if r.Found? then
      UnblockedIsFreeFloor(g, Coord(r.tx, r.ty));
      r
    else r
  }

  /** How far the search can wander in `n` probes from the given counters:
      each probe moves at most the current radius on each axis. */
  function Reach(radius: nat, attempt: nat, n: nat): nat
    decreases n
  {
    if n == 0 then 0
    else
      var next := NextCounters(radius, attempt);
      radius + Reach(next.0, next.1, n - 1)
  }

  /** The tile found lies within the search's reach of the starting point. */
  lemma {:induction false} SpawnStaysWithinReach(g: Grid, x: int, y: int, radius: nat, attempt: nat, draws: seq<(nat, nat)>)
    requires WellFormed(g)
    ensures var r := SpawnSearch(g, x, y, radius, attempt, draws);
      r.Found? ==>
        x - Reach(radius, attempt, |draws|) <= r.tx <= x + Reach(radius, attempt, |draws|) &&
        y - Reach(radius, attempt, |draws|) <= r.ty <= y + Reach(radius, attempt, |draws|)
    decreases |draws|
  {
    if InBounds(Coord(x, y)) && Blocked(g, x, y) && |draws| > 0 {
      var nx := SampleRange(x - radius, x + radius, draws[0].0);
      var ny := SampleRange(y - radius, y + radius, draws[0].1);
      var next := NextCounters(radius, attempt);
      SpawnStaysWithinReach(g, nx, ny, next.0, next.1, draws[1..]);
    }
  }
}
