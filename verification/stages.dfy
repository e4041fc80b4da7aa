/** The earlier stages of the tutorial, each a simpler variant of the current
    turn: the move-only `attempt_move` player and enemies, the camera that
    followed the whole screen, the patrolling enemy without sight, and the
    spawner without a free-tile search. Each variant is related to the
    current model by a lemma. */
module Stages {
  import opened Common
  import opened Geometry
  import opened Tiles
  import Cam = Camera
  import opened Attacker
  import opened Entities
  import opened Occupant
  import opened Movement
  import opened Policy
  import opened World
  import opened Links
  import opened Invariants

  /** The player's `tick` when moving went through `attempt_move`: the flag is
      cleared, an unchanged target ends the tick, a blocked target does
      nothing, and a free one moves the player and runs the block (camera
      tick, flag, `update_tile`). */
  function PlayerTickMoveOnly(s: State, keys: Keys): (r: State)
    requires WellFormed(s.grid)
    ensures r.log == s.log && |r.enemies| == |s.enemies|
    ensures r.tookAction ==>
      (r.player.mapX, r.player.mapY) == PlayerTarget(keys, s.player.mapX, s.player.mapY) &&
      r.player.tile == Some(TargetTile(r.player.mapX, r.player.mapY))
  {
    var s0 := s.(tookAction := false);
    var p := s0.player;
    var t := PlayerTarget(keys, p.mapX, p.mapY);
    if t.0 == p.mapX && t.1 == p.mapY then s0
    else if DecideMoveOnly(s0.grid, t.0, t.1) == Idle then s0
    else
      var moved := p.(mapX := t.0, mapY := t.1);
      var cam := Cam.Tick(s0.camera, moved.mapX, moved.mapY);
      var bound := UpdateTile(s0.grid, moved);
      Put(s0.(camera := cam, tookAction := true, grid := bound.0), bound.1)
  }

  /** The move-only tick acts exactly when a movement key is held and the
      target tile is free; otherwise only the flag is cleared. */
  lemma MoveOnlyActsIffFree(s: State, keys: Keys)
    requires WellFormed(s.grid)
    ensures var p := s.player;
      var t := PlayerTarget(keys, p.mapX, p.mapY);
      var c := TargetTile(t.0, t.1);
      var acted := (RightHeld(keys) || LeftHeld(keys) || UpHeld(keys) || DownHeld(keys)) && !Blocked(s.grid, c.tx, c.ty);
      && (PlayerTickMoveOnly(s, keys).tookAction <==> acted)
      && (!acted ==> PlayerTickMoveOnly(s, keys) == s.(tookAction := false))
  {
    TargetMovesIffKeyHeld(keys, s.player.mapX, s.player.mapY);
  }

  /** The current tick of a player that cannot attack is the move-only tick:
      `move_or_attack` without `deal_damage` is `attempt_move`. */
  lemma MoveOnlyTickIsUnarmedCase(s: State, keys: Keys, roll: int)
    requires WellFormed(s.grid) && IsD20(roll) && !CanDealDamage(s.player)
    ensures PlayerTick(s, keys, roll) == PlayerTickMoveOnly(s, keys)
  {
    var p := s.player;
    var t := PlayerTarget(keys, p.mapX, p.mapY);
    var s0 := s.(tookAction := false);
    AttemptMoveIsMoveOnlyCase(s0.grid, p, t.0, t.1, OccupantAt(s0, t.0, t.1));
  }

  /** The player's `tick` before turns existed: no early return and no flag;
      `attempt_move` runs even with no key held, and its block only ticks
      the full-screen camera. Tiles had no occupants to rebind yet. Returns
      the camera and the player. */
  function PlayerTickScrolling(g: Grid, cam: Cam.Camera, p: Entity, keys: Keys): (r: (Cam.Camera, Entity))
    requires WellFormed(g)
    ensures Cam.InRange(cam, ScreenWidth, ScreenHeight) ==> Cam.InRange(r.0, ScreenWidth, ScreenHeight)
    ensures r.1 == p || (r.1.mapX, r.1.mapY) == PlayerTarget(keys, p.mapX, p.mapY)
  {
    var t := PlayerTarget(keys, p.mapX, p.mapY);
    var c := TargetTile(t.0, t.1);
    if BlockedInline(g, c.tx, c.ty) then (cam, p)
    else (Cam.TickFullScreen(cam, t.0, t.1), p.(mapX := t.0, mapY := t.1))
  }

  /** With no key held the scrolling-era tick still "moves" the player onto
      its own free tile, so the camera follows; the current tick does nothing
      at all with no key held. */
  lemma IdleTickStillScrolls(g: Grid, cam: Cam.Camera, s: State, roll: int)
    requires WellFormed(g) && WellFormed(s.grid) && IsD20(roll)
    requires var c := TileOf(s.player); InBounds(c) && !Blocked(g, c.tx, c.ty)
    ensures PlayerTickScrolling(g, cam, s.player, NoKeys) ==
      (Cam.TickFullScreen(cam, s.player.mapX, s.player.mapY), s.player)
    ensures PlayerTick(s, NoKeys, roll) == s.(tookAction := false)
  {
    var p := s.player;
    BlockedInlineAgrees(g, TileOf(p).tx, TileOf(p).ty);
    PlayerActsIffMovedOrAttacked(s, NoKeys, roll);
    TargetMovesIffKeyHeld(NoKeys, p.mapX, p.mapY);
  }

  /** Where a key is held, the scrolling-era tick and the move-only tick put
      the player in the same place. */
  lemma ScrollingAgreesWithMoveOnly(s: State, cam: Cam.Camera, keys: Keys)
    requires WellFormed(s.grid)
    requires RightHeld(keys) || LeftHeld(keys) || UpHeld(keys) || DownHeld(keys)
    ensures var a := PlayerTickScrolling(s.grid, cam, s.player, keys).1;
      var b := PlayerTickMoveOnly(s, keys).player;
      a.mapX == b.mapX && a.mapY == b.mapY
  {
    var p := s.player;
    var t := PlayerTarget(keys, p.mapX, p.mapY);
    var c := TargetTile(t.0, t.1);
    TargetMovesIffKeyHeld(keys, p.mapX, p.mapY);
    BlockedInlineAgrees(s.grid, c.tx, c.ty);
  }

  /** The first enemy's `tick`: a patrol step in a random cardinal direction
      through `attempt_move`, with nothing to rebind. */
  function PatrolTick(g: Grid, e: Entity, pick: nat): (r: Entity)
    requires WellFormed(g)
    ensures r == e.(mapX := r.mapX, mapY := r.mapY)
    ensures r != e ==> !Blocked(g, TargetTile(r.mapX, r.mapY).tx, TargetTile(r.mapX, r.mapY).ty)
  {
    var t := MoveTowards(e.mapX, e.mapY, Sample(PatrolDirections, pick));
    if DecideMoveOnly(g, t.0, t.1) == Moved then e.(mapX := t.0, mapY := t.1) else e
  }

  /** A patrol step either stays put or moves exactly one tile along one axis
      onto a free floor tile; every direction can be drawn. */
  lemma PatrolMovesOneTile(g: Grid, e: Entity, pick: nat)
    requires WellFormed(g)
    ensures var r := PatrolTick(g, e, pick);
      r == e || (
        && r == e.(mapX := r.mapX, mapY := r.mapY)
        && Abs(r.mapX - e.mapX) + Abs(r.mapY - e.mapY) == TileWidth
        && (r.mapX == e.mapX || r.mapY == e.mapY)
        && IsFloor(g, TargetTile(r.mapX, r.mapY)) && TileOccupant(g, TargetTile(r.mapX, r.mapY)).None?)
    ensures forall d :: d in PatrolDirections ==> exists k :: 0 <= k < 4 && Sample(PatrolDirections, k) == Some(d)
  {
    var r := PatrolTick(g, e, pick);
    var t := MoveTowards(e.mapX, e.mapY, Sample(PatrolDirections, pick));
    if r != e {
      UnblockedIsFreeFloor(g, TargetTile(t.0, t.1));
    }
    forall d | d in PatrolDirections
      ensures exists k :: 0 <= k < 4 && Sample(PatrolDirections, k) == Some(d)
    {
      var k :| 0 <= k < 4 && PatrolDirections[k] == d;
      SampleCovers(PatrolDirections, k);
    }
  }

  /** The later enemy, out of sight of the player, patrols exactly like the
      first one. */
  lemma LaterPatrolIsFirstPatrol(e: Entity, player: Entity, pick: nat)
    requires !Sees(e, player)
    ensures EnemyDirection(e, player, pick) == Sample(PatrolDirections, pick)
  {
  }

  /** `act` of enemy `i` when enemies only moved: the direction as now, then
      `attempt_move`, whose block rebinds the enemy's tile. */
  function EnemyActMoveOnly(s: State, i: nat, pick: nat): (r: State)
    requires WellFormed(s.grid) && i < |s.enemies|
    ensures |r.enemies| == |s.enemies| && WellFormed(r.grid) && r.log == s.log
    ensures r.camera == s.camera && r.tookAction == s.tookAction
  {
    var e := s.enemies[i];
    var t := MoveTowards(e.mapX, e.mapY, EnemyDirection(e, s.player, pick));
    if DecideMoveOnly(s.grid, t.0, t.1) == Idle then s
    else
      var bound := UpdateTile(s.grid, e.(mapX := t.0, mapY := t.1));
      Put(s.(grid := bound.0), bound.1)
  }

  /** The current `act` of an enemy that cannot attack is the move-only one,
      whatever the d20 would have rolled. */
  lemma MoveOnlyActIsUnarmedCase(s: State, i: nat, pick: nat, roll: int)
    requires WellFormed(s.grid) && i < |s.enemies| && IsD20(roll) && !CanDealDamage(s.enemies[i])
    ensures EnemyAct(s, i, EnemyDraw(pick, roll)) == EnemyActMoveOnly(s, i, pick)
  {
    var e := s.enemies[i];
    var t := MoveTowards(e.mapX, e.mapY, EnemyDirection(e, s.player, pick));
    AttemptMoveIsMoveOnlyCase(s.grid, e, t.0, t.1, OccupantAt(s, t.0, t.1));
  }

  /** Two lists with the same ids position by position are alike in having
      unique ids. */
  lemma SameIdsUnique(a: seq<Entity>, b: seq<Entity>)
    requires Ids(a) == Ids(b) && UniqueIds(a)
    ensures UniqueIds(b)
  {
    forall j, k | 0 <= j < k < |b|
      ensures b[j].id != b[k].id
    {
      assert Ids(a)[j] == Ids(b)[j] && Ids(a)[k] == Ids(b)[k];
    }
  }

  /** A move-only enemy never touches the player, so ids stay distinct. */
  lemma {:induction false} MoveOnlyActSparesPlayer(s: State, i: nat, pick: nat)
    requires WellFormed(s.grid) && i < |s.enemies| && UniqueIds(Ents(s))
    ensures var r := EnemyActMoveOnly(s, i, pick);
      r.player == s.player && UniqueIds(Ents(r)) && r.tookAction == s.tookAction
  {
    var r := EnemyActMoveOnly(s, i, pick);
    if r != s {
      var e := s.enemies[i];
      var t := MoveTowards(e.mapX, e.mapY, EnemyDirection(e, s.player, pick));
      var bound := UpdateTile(s.grid, e.(mapX := t.0, mapY := t.1));
      EnemyIsNotPlayer(s, i);
      assert bound.1.id != s.player.id;
      ReplaceIds(Ents(s), bound.1);
      SameIdsUnique(Ents(s), Ents(r));
    }
  }

  /** `enemies.each { |enemy| enemy.tick }` when enemies only moved. */
  function TickFromMoveOnly(s: State, i: nat, picks: seq<nat>): (r: State)
    requires WellFormed(s.grid) && i <= |s.enemies| && |picks| == |s.enemies|
    ensures |r.enemies| == |s.enemies| && WellFormed(r.grid)
    ensures r.log == s.log && r.camera == s.camera && r.tookAction == s.tookAction
    decreases |s.enemies| - i
  {
    if i == |s.enemies| then s
    else TickFromMoveOnly(EnemyActMoveOnly(s, i, picks[i]), i + 1, picks)
  }

  /** The enemy controller before combat: the same gate, every enemy ticks,
      and nobody is ever removed. */
  function EnemyControllerTickMoveOnly(s: State, picks: seq<nat>): (r: State)
    requires WellFormed(s.grid) && |picks| == |s.enemies|
    ensures !s.tookAction ==> r == s
    ensures |r.enemies| == |s.enemies|
  {
    if !s.tookAction then s else TickFromMoveOnly(s, 0, picks)
  }

  /** However many move-only enemies tick, the player is left alone. */
  lemma {:induction false} MoveOnlyEnemiesSparePlayer(s: State, i: nat, picks: seq<nat>)
    requires WellFormed(s.grid) && i <= |s.enemies| && |picks| == |s.enemies| && UniqueIds(Ents(s))
    ensures var r := TickFromMoveOnly(s, i, picks); r.player == s.player && UniqueIds(Ents(r))
    decreases |s.enemies| - i
  {
    if i < |s.enemies| {
      var next := EnemyActMoveOnly(s, i, picks[i]);
      assert TickFromMoveOnly(s, i, picks) == TickFromMoveOnly(next, i + 1, picks);
      MoveOnlyActSparesPlayer(s, i, picks[i]);
      MoveOnlyEnemiesSparePlayer(next, i + 1, picks);
    }
  }

  /** A turn of the combat-free enemy controller never changes the player
      and keeps ids distinct. */
  lemma MoveOnlyControllerSparesPlayer(s: State, picks: seq<nat>)
    requires WellFormed(s.grid) && |picks| == |s.enemies| && UniqueIds(Ents(s))
    ensures var r := EnemyControllerTickMoveOnly(s, picks); r.player == s.player && UniqueIds(Ents(r))
  {
    if s.tookAction {
      MoveOnlyEnemiesSparePlayer(s, 0, picks);
    }
  }

  /** The spawner before the free-tile search: zombies are appended to the
      existing list (`||= []` then `<<`) at uniformly drawn tile indices,
      numbered from `firstId`; nothing checks the tile. */
  function SpawnEnemiesUnchecked(existing: seq<Entity>, picks: seq<(nat, nat)>, firstId: EntityId): (r: seq<Entity>)
    ensures |r| == |existing| + |picks| && r[..|existing|] == existing
    ensures forall k :: |existing| <= k < |r| ==>
      r[k] == NewMover(firstId + k - |existing|, ZombieKind, TileOf(r[k]).tx, TileOf(r[k]).ty) &&
      InBounds(TileOf(r[k]))
    decreases |picks|
  {
    if |picks| == 0 then existing
    else
      var tx := SampleRange(0, MapWidth - 1, picks[0].0);
      var ty := SampleRange(0, MapHeight - 1, picks[0].1);
      var z := NewMover(firstId, ZombieKind, tx, ty);
      var r := SpawnEnemiesUnchecked(existing + [z], picks[1..], firstId + 1);
      assert (existing + [z])[..|existing|] == existing;
      assert r[|existing|] == (existing + [z])[|existing|];
      r
  }

  /** The searching spawner keeps the drawn tile whenever it is free, so it
      agrees with the unchecked one there; it only ever moves a zombie off a
      blocked tile. */
  lemma SearchKeepsFreeNominalTile(g: Grid, xPick: nat, yPick: nat, search: seq<(nat, nat)>, id: EntityId)
    requires WellFormed(g)
    requires var c := Coord(SampleRange(0, MapWidth - 1, xPick), SampleRange(0, MapHeight - 1, yPick));
      !Blocked(g, c.tx, c.ty)
    ensures var searched := SpawnEnemies(g, [SpawnDraw(xPick, yPick, search)], id);
      var unchecked := SpawnEnemiesUnchecked([], [(xPick, yPick)], id);
      searched.Some? && |searched.value| == 1 &&
      searched.value[0].mapX == unchecked[0].mapX && searched.value[0].mapY == unchecked[0].mapY
  {
    var tx := SampleRange(0, MapWidth - 1, xPick);
    var ty := SampleRange(0, MapHeight - 1, yPick);
    var spawns := [SpawnDraw(xPick, yPick, search)];
    assert spawns[1..] == [];
    assert SpawnNear(g, tx, ty, search) == Found(tx, ty);
  }
}
