/** The game state and one turn of the game: the player's action, then (only
    if the player moved or attacked) every enemy in list order, then the
    removal of dead enemies. Also `reset`, which builds the initial state. */
module World {
  import opened Common
  import opened Geometry
  import opened Tiles
  import Cam = Camera
  import opened Attacker
  import opened Entities
  import opened Occupant
  import opened Movement
  import opened Policy
  import opened EventLog

  /** `args.state`: the map with its camera, the player, the enemy list, the
      event log, and the player's `took_action` flag. */
  datatype State = State(
    grid: Grid,
    camera: Cam.Camera,
    player: Entity,
    enemies: seq<Entity>,
    log: Log,
    tookAction: bool)

  /** Every entity of the state, the player first. */
  function Ents(s: State): (es: seq<Entity>)
    ensures |es| == |s.enemies| + 1 && es[0] == s.player && es[1..] == s.enemies
  {
    [s.player] + s.enemies
  }

  /** The first entity carrying `id`. */
  function Find(es: seq<Entity>, id: EntityId): (r: Option<Entity>)
    ensures r.Some? ==> r.value in es && r.value.id == id
    ensures r.None? <==> forall e :: e in es ==> e.id != id
  {
    if |es| == 0 then None
    else if es[0].id == id then Some(es[0])
    else Find(es[1..], id)
  }

  /** The entity an occupant slot names. */
  function Lookup(s: State, id: EntityId): Option<Entity> {
    Find(Ents(s), id)
  }

  /** Every entity carrying `e`'s id replaced by `e`. */
  function Replace(es: seq<Entity>, e: Entity): (r: seq<Entity>)
    ensures |r| == |es|
    ensures forall i :: 0 <= i < |es| && es[i].id != e.id ==> r[i] == es[i]
    ensures forall i :: 0 <= i < |es| && es[i].id == e.id ==> r[i] == e
  {
    seq(|es|, i requires 0 <= i < |es| => if es[i].id == e.id then e else es[i])
  }

  /** Writing back an updated entity, wherever it lives in the state. */
  function Put(s: State, e: Entity): (r: State)
    ensures Ents(r) == Replace(Ents(s), e)
    ensures r.grid == s.grid && r.camera == s.camera && r.log == s.log && r.tookAction == s.tookAction
  {
    var r := s.(player := if s.player.id == e.id then e else s.player, enemies := Replace(s.enemies, e));
    assert Ents(r) == Replace(Ents(s), e);
    r
  }

  /** `tile_occupant` at a target position, resolved to the entity. */
  function OccupantAt(s: State, targetX: int, targetY: int): (r: Option<Entity>)
    requires WellFormed(s.grid)
    ensures r.Some? ==> TileOccupant(s.grid, TargetTile(targetX, targetY)) == Some(r.value.id)
    ensures r.Some? ==> r.value in Ents(s)
  {
    match TileOccupant(s.grid, TargetTile(targetX, targetY))
    case None => None
    case Some(id) => Lookup(s, id)
  }

  /** The result of `move_or_attack` before its block runs: what happened, the
      actor (moved, if it moved) and the state with the attack applied. */
  datatype Attempt = Attempt(outcome: Outcome, actor: Entity, state: State)

  /** `move_or_attack(target_x, target_y)` with `roll` as the d20 of a
      possible attack. A move changes only the actor's position; an attack
      changes only the target and the event log; otherwise nothing changes. */
  function MoveOrAttack(s: State, actor: Entity, targetX: int, targetY: int, roll: int): (r: Attempt)
    requires WellFormed(s.grid) && IsD20(roll)
    ensures r.outcome == Decide(s.grid, actor, targetX, targetY, OccupantAt(s, targetX, targetY))
    ensures r.outcome == Moved ==> r.actor == actor.(mapX := targetX, mapY := targetY) && r.state == s
    ensures r.outcome == Idle ==> r.actor == actor && r.state == s
    ensures r.outcome == Attacked ==>
      var other := OccupantAt(s, targetX, targetY).value;
      var hit := DealDamage(actor, other, roll);
      && r.actor == actor
      && r.state == Put(s, hit.0).(log := if hit.1.Some? then LogEvent(s.log, hit.1.value) else s.log)
  {
    var other := OccupantAt(s, targetX, targetY);
    match Decide(s.grid, actor, targetX, targetY, other)
    case Moved => Attempt(Moved, actor.(mapX := targetX, mapY := targetY), s)
    case Idle => Attempt(Idle, actor, s)
    case Attacked =>
      var hit := DealDamage(actor, other.value, roll);
      var log := if hit.1.Some? then LogEvent(s.log, hit.1.value) else s.log;
      Attempt(Attacked, actor, Put(s, hit.0).(log := log))
  }

  /** The player's `tick`. `took_action` is cleared first; a target equal to
      the position ends the tick; otherwise `move_or_attack` runs, and its
      block (camera tick, `took_action`, `update_tile`) runs exactly when the
      player moved or attacked. */
  function PlayerTick(s: State, keys: Keys, roll: int): (r: State)
    requires WellFormed(s.grid) && IsD20(roll)
    ensures |r.enemies| == |s.enemies| && WellFormed(r.grid)
    ensures r.log == s.log || (|r.log.events| > 0 && r.log.events[1..] == s.log.events)
  {
    var s0 := s.(tookAction := false);
    var p := s0.player;
    var t := PlayerTarget(keys, p.mapX, p.mapY);
    if t.0 == p.mapX && t.1 == p.mapY then s0
    else
      var a := MoveOrAttack(s0, p, t.0, t.1, roll);
      if a.outcome == Idle then a.state
      else
        var cam := Cam.Tick(a.state.camera, a.actor.mapX, a.actor.mapY);
        var bound := UpdateTile(a.state.grid, a.actor);
        Put(a.state.(camera := cam, tookAction := true, grid := bound.0), bound.1)
  }

  /** The player acts (`took_action` ends true) exactly when a movement key is
      held and `move_or_attack` moves or attacks; otherwise the state is the
      old one with `took_action` cleared. */
  lemma PlayerActsIffMovedOrAttacked(s: State, keys: Keys, roll: int)
    requires WellFormed(s.grid) && IsD20(roll)
    ensures var p := s.player;
      var t := PlayerTarget(keys, p.mapX, p.mapY);
      var acted := (t.0 != p.mapX || t.1 != p.mapY) &&
        MoveOrAttack(s.(tookAction := false), p, t.0, t.1, roll).outcome != Idle;
      && (PlayerTick(s, keys, roll).tookAction <==> acted)
      && (!acted ==> PlayerTick(s, keys, roll) == s.(tookAction := false))
  {
  }

  /** The oracle draws of one enemy's turn: the `sample` pick and the d20. */
  datatype EnemyDraw = EnemyDraw(pick: nat, roll: int)

  predicate DrawsValid(draws: seq<EnemyDraw>) {
    forall i :: 0 <= i < |draws| ==> IsD20(draws[i].roll)
  }

  /** `act` of enemy `i`: pick a direction, then `move_towards`, whose block
      rebinds the enemy's tile when it moved or attacked. */
  function EnemyAct(s: State, i: nat, draw: EnemyDraw): (r: State)
    requires WellFormed(s.grid) && i < |s.enemies| && IsD20(draw.roll)
    ensures |r.enemies| == |s.enemies| && WellFormed(r.grid)
    ensures r.camera == s.camera && r.tookAction == s.tookAction
    ensures r.log == s.log || (|r.log.events| > 0 && r.log.events[1..] == s.log.events)
  {
    var e := s.enemies[i];
    var t := MoveTowards(e.mapX, e.mapY, EnemyDirection(e, s.player, draw.pick));
    var a := MoveOrAttack(s, e, t.0, t.1, draw.roll);
    if a.outcome == Idle then a.state
    else
      var bound := UpdateTile(a.state.grid, a.actor);
      Put(a.state.(grid := bound.0), bound.1)
  }

  /** The enemy's `tick`: a living enemy acts; a dead one frees its tile. */
  function EnemyTick(s: State, i: nat, draw: EnemyDraw): (r: State)
    requires WellFormed(s.grid) && i < |s.enemies| && IsD20(draw.roll)
    ensures |r.enemies| == |s.enemies| && WellFormed(r.grid)
    ensures r.camera == s.camera && r.tookAction == s.tookAction
    ensures !IsAlive(s.enemies[i]) ==>
      r.player == s.player && r.enemies == s.enemies && r.log == s.log && SameTerrain(s.grid, r.grid)
  {
    var e := s.enemies[i];
    if IsAlive(e) then EnemyAct(s, i, draw)
    else s.(grid := FreeTileOnDeath(s.grid, e))
  }

  /** `enemies.each { |enemy| enemy.tick }` from index `i` on. */
  function TickFrom(s: State, i: nat, draws: seq<EnemyDraw>): (r: State)
    requires WellFormed(s.grid) && i <= |s.enemies| && |draws| == |s.enemies| && DrawsValid(draws)
    ensures |r.enemies| == |s.enemies| && WellFormed(r.grid)
    ensures r.camera == s.camera && r.tookAction == s.tookAction
    ensures |r.log.events| <= |s.log.events| + (|s.enemies| - i)
    decreases |s.enemies| - i
  {
    if i == |s.enemies| then s
    else TickFrom(EnemyTick(s, i, draws[i]), i + 1, draws)
  }

  /** `select(&:alive?)`: the living enemies, in their original order. */
  function FilterAlive(es: seq<Entity>): (r: seq<Entity>)
    ensures |r| <= |es|
    ensures forall e :: e in r <==> e in es && IsAlive(e)
  {
    if |es| == 0 then []
    else
      var rest := FilterAlive(es[1..]);
      assert forall e :: e in es <==> e == es[0] || e in es[1..];
      if IsAlive(es[0]) then [es[0]] + rest else rest
  }

  /** Filtering works element by element, so it keeps relative order: the
      filter of a concatenation is the concatenation of the filters. */
  lemma {:induction false} FilterAliveAppend(a: seq<Entity>, b: seq<Entity>)
    ensures FilterAlive(a + b) == FilterAlive(a) + FilterAlive(b)
    decreases |a|
  {
    if |a| > 0 {
      assert (a + b)[0] == a[0] && (a + b)[1..] == a[1..] + b;
      FilterAliveAppend(a[1..], b);
    } else {
      assert a + b == b;
    }
  }

  /** A list whose members all live is left as it is. */
  lemma {:induction false} FilterAliveKeepsLiving(es: seq<Entity>)
    requires forall e :: e in es ==> IsAlive(e)
    ensures FilterAlive(es) == es
    decreases |es|
  {
    if |es| > 0 {
      assert forall e :: e in es[1..] ==> e in es;
      FilterAliveKeepsLiving(es[1..]);
      assert [es[0]] + es[1..] == es;
    }
  }

  /** `EnemyController.tick`: nothing unless the player took an action; then
      every enemy ticks once in list order and the dead are dropped. */
  function EnemyControllerTick(s: State, draws: seq<EnemyDraw>): (r: State)
    requires WellFormed(s.grid) && |draws| == |s.enemies| && DrawsValid(draws)
    ensures !s.tookAction ==> r == s
    ensures |r.enemies| <= |s.enemies|
    ensures s.tookAction ==> forall e :: e in r.enemies ==> IsAlive(e)
    ensures s.tookAction ==> r.enemies == FilterAlive(TickFrom(s, 0, draws).enemies)
  {
    if !s.tookAction then s
    else
      var ticked := TickFrom(s, 0, draws);
      ticked.(enemies := FilterAlive(ticked.enemies))
  }

  /** `GameController.tick`: the player first, then the enemy controller. */
  function GameTick(s: State, keys: Keys, roll: int, draws: seq<EnemyDraw>): (r: State)
    requires WellFormed(s.grid) && IsD20(roll) && |draws| == |s.enemies| && DrawsValid(draws)
    ensures |r.enemies| <= |s.enemies|
  {
    EnemyControllerTick(PlayerTick(s, keys, roll), draws)
  }

  /** A tick in which the player does not act leaves everything but the
      cleared `took_action` flag alone: no enemy moves. */
  lemma IdleTurnFreezesEnemies(s: State, keys: Keys, roll: int, draws: seq<EnemyDraw>)
    requires WellFormed(s.grid) && IsD20(roll) && |draws| == |s.enemies| && DrawsValid(draws)
    requires !PlayerTick(s, keys, roll).tookAction
    ensures GameTick(s, keys, roll, draws) == s.(tookAction := false)
  {
    PlayerActsIffMovedOrAttacked(s, keys, roll);
  }

  /** The number of zombies `spawn_enemies` creates. */
  const EnemyCount: nat := 30

  /** The nominal spawn tile of the player. */
  const PlayerSpawnX: int := 10
  const PlayerSpawnY: int := 11

  /** The oracle draws of one zombie spawn: the `rand` picks of its nominal
      tile and the draws of its free-tile search. */
  datatype SpawnDraw = SpawnDraw(xPick: nat, yPick: nat, search: seq<(nat, nat)>)

  /** `spawn_enemies`: one zombie per draw, at a free tile found near a random
      nominal tile, with ids counting up from `firstId`. None when a search
      fails. */
  function SpawnEnemies(g: Grid, spawns: seq<SpawnDraw>, firstId: EntityId): (r: Option<seq<Entity>>)
    requires WellFormed(g)
    ensures r.Some? ==> |r.value| == |spawns|
    ensures r.Some? ==> forall i :: 0 <= i < |r.value| ==>
      var z := r.value[i];
      && z == NewZombie(firstId + i, TileOf(z).tx, TileOf(z).ty)
      && IsFloor(g, TileOf(z)) && TileOccupant(g, TileOf(z)).None?
    decreases |spawns|
  {
    if |spawns| == 0 then Some([])
    else
      var d := spawns[0];
      var tx := SampleRange(0, MapWidth - 1, d.xPick);
      var ty := SampleRange(0, MapHeight - 1, d.yPick);
      match SpawnNear(g, tx, ty, d.search)
      case Found(x, y) =>
        (match SpawnEnemies(g, spawns[1..], firstId + 1)
         case None => None
         case Some(rest) =>
           var z := NewZombie(firstId, x, y);
           var r := [z] + rest;
           assert forall i :: 1 <= i < |r| ==> r[i] == rest[i - 1];
           Some(r))
      case _ => None
  }

  /** `GameController.reset`: empty log, a freshly generated map with the
      camera at its origin, the player near (10, 11) with id 0, then the
      zombies with ids 1 to 30. Spawning binds no tile. None when a free-tile
      search fails. */
  function Reset(samples: seq<seq<nat>>, playerSearch: seq<(nat, nat)>, spawns: seq<SpawnDraw>): (r: Option<State>)
    requires SamplesShaped(samples) && |spawns| == EnemyCount
    ensures r.Some? ==> r.value.grid == MapTiles(samples) && r.value.camera == Cam.Origin
    ensures r.Some? ==> r.value.log == EventLog.Empty && !r.value.tookAction
    ensures r.Some? ==> |r.value.enemies| == EnemyCount
    ensures r.Some? ==> forall c :: TileOccupant(r.value.grid, c).None?
    ensures r.Some? ==>
      var at := TileOf(r.value.player);
      && SpawnNear(r.value.grid, PlayerSpawnX, PlayerSpawnY, playerSearch) == Found(at.tx, at.ty)
      && r.value.player == NewPlayer(0, at.tx, at.ty)
    ensures r.Some? ==> SpawnEnemies(r.value.grid, spawns, 1) == Some(r.value.enemies)
    ensures r.None? <==>
      !SpawnNear(MapTiles(samples), PlayerSpawnX, PlayerSpawnY, playerSearch).Found? ||
      SpawnEnemies(MapTiles(samples), spawns, 1).None?
  {
    var g := MapTiles(samples);
    match SpawnNear(g, PlayerSpawnX, PlayerSpawnY, playerSearch)
    case Found(x, y) =>
      (match SpawnEnemies(g, spawns, 1)
       case None => None
       case Some(zombies) => Some(State(g, Cam.Origin, NewPlayer(0, x, y), zombies, EventLog.Empty, false)))
    case _ => None
  }
}
