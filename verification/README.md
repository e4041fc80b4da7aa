# A Dafny model of the DragonRuby roguelike tutorial's turn logic

The tutorial builds an ASCII roguelike one stage at a time, on two parallel
tracks (`NN/ascii/...` and `roguelike_oo/NN/ascii/...`). Underneath the
rendering, every stage is a small grid simulation that advances one turn at a
time:

- an 80×45 map of walls and floors, where a floor holds at most one occupant;
- a player who turns the held keys into a target one tile away;
- zombies that seek the player when it is within 300 pixels and patrol otherwise;
- `move_or_attack`, which walks into a free tile or attacks a hostile occupant;
- d20 combat whose results go to a newest-first event log;
- a camera that scrolls one tile at a time to keep the player in a buffer zone;
- an enemy controller that lets enemies act only after the player has acted,
  and then drops the dead.

The model follows the latest stage (roguelike_oo/09–10 and 10/ascii). The
earlier stages (the move-only `attempt_move`, the full-screen camera, the
patrol-only enemy, the spawner without a free-tile search, the direct-step
player, and the always-hitting attacker) are modelled as simpler variants.
Lemmas tie each variant to the current one.

Randomness becomes explicit oracle arguments:
- `sample` and `rand` are an index `pick`, reduced modulo the range.
- The d20 is a `roll` with 1 ≤ roll ≤ 20.

Object references become entity ids: a tile's occupant slot stores the id of
the entity bound to it.

Modules, one per file:

| module | file | what it holds |
|---|---|---|
| Common | common.dfy | `Option`, entity ids, the oracle form of `sample` |
| Geometry | geometry.dfy | map and screen constants, world↔tile conversion |
| Tiles | tiles.dfy | walls and floors, `map_tiles`, `tile_at`, `blocked?`, `tile_occupant` |
| Camera | camera.dfy | `MapController.tick` and its clamp |
| Defender | defender.dfy | hit points, `take_damage`, `alive?` |
| Dice | dice.dfy | `Dice.roll` |
| Attacker | attacker.dfy | the d20 resolution and the event-log line |
| Entities | entities.dfy | the entity record, stats, `deal_damage`, distance |
| EventLog | event_log.dfy | `log_event`, `reset`, labels, the render window |
| Occupant | occupant.dfy | `update_tile`, `free_tile_on_death` |
| Movement | movement.dfy | `move_or_attack` arbitration, `attempt_move`, `spawn_near` |
| Policy | policy.dfy | player targets, enemy directions, `move_towards` |
| World | world.dfy | the game state, the player and enemy ticks, the controllers, `reset` |
| Links | links.dfy | the occupancy invariant and how each kind of step keeps it |
| Invariants | invariants.dfy | the world invariant, preserved by every step of a turn and set up by `reset` |
| Stages | stages.dfy | the earlier stages and how they relate to the current one |

The central result is `Invariants.GameTickValid`. A whole turn keeps the world
invariant `Valid`, which holds that:
- entity ids are unique;
- every filled slot names a listed entity;
- a slot naming an entity is the tile that entity is bound to;
- everyone stands on a floor tile of the 32-pixel lattice;
- the player is the player and every enemy is a zombie;
- hit points are never negative;
- every dead entity is bound to a tile;
- the camera is in range;
- no dead enemy remains.

`Invariants.ResetValid` shows that `reset` establishes the invariant. Two
consequences follow:
- the two crash paths of the source are unreachable: `update_tile` never
  binds a wall, and `free_tile_on_death` never meets an unbound entity;
- a zombie only ever attacks the player.

Points where the code is easy to misread:
- A natural 20 only adds the critical bonus. The roll must still meet the
  defense (`Attacker.CritDoesNotBypassDefense`).
- The camera moves only inside the block of the player's successful move or
  attack. Enemy turns never move it (`World.EnemyAct`, `World.TickFrom`).
- Spawned entities never bind a tile. A tile is first bound when its entity
  first moves or attacks.
- `took_damage` is never cleared, because the tick resets the misspelled
  `@took_damange`. `Invariants.GameTickValid` proves that the flag never
  falls.
- The stage-08 player declares no faction, so it keeps the neutral default
  and zombies cannot attack it (`Movement.NoAttackOnFriendOrNeutral`,
  `Entities.NewPlayerNoCrit`).

## Model

| member | source | states |
|---|---|---|
| Common.Sample | roguelike_oo/09/ascii/app/entities/enemy.rb:40-45 | `sample` is nil exactly on an empty array; otherwise it returns a member |
| Common.SampleCovers | roguelike_oo/09/ascii/app/entities/enemy.rb:45 | every element of the array can be drawn by some oracle index |
| Common.SampleRange | roguelike_oo/09/ascii/app/entities/mobile_entity.rb:10-11 | a draw from `(lo..hi).to_a.sample` lies in [lo, hi] |
| Common.SampleRangeCovers | roguelike_oo/09/ascii/app/entities/mobile_entity.rb:10-11 | every value of the range is reachable |
| Geometry.MapXToTileX | roguelike_oo/10/ascii/app/controllers/map_controller.rb:50-52 | the column returned is the one whose 32-pixel strip contains the position (floor division, negative positions included) |
| Geometry.MapYToTileY | roguelike_oo/10/ascii/app/controllers/map_controller.rb:54-56 | the row returned is the one whose 32-pixel strip contains the position |
| Geometry.TileRoundTrip | roguelike_oo/10/ascii/app/controllers/map_controller.rb:50-56 | tile·32 + r with 0 ≤ r < 32 converts back to the tile on both axes |
| Geometry.TileOrigin | roguelike_oo/10/ascii/app/controllers/map_controller.rb:83-84 | the corner `tile_for` gives tile (tx, ty), (tx·32, ty·32), converts back to (tx, ty) |
| Geometry.TileConvertersAgree | 09/ascii/app/entities/base.rb:33-39 | `map_tile_y`, which converts y with the x converter, gets the same row as the y converter would |
| Tiles.Blocking | roguelike_oo/10/ascii/app/entities/floor.rb:10-12 | a tile blocks iff it is a wall (roguelike_oo/09/ascii/app/entities/wall.rb:8-10) or a floor with an occupant, so an empty floor never blocks |
| Tiles.TileFor | roguelike_oo/10/ascii/app/controllers/map_controller.rb:81-88 | the tile is 32×32, has the requested terrain, and sits where its position converts back to (tx, ty) |
| Tiles.TileAt | roguelike_oo/10/ascii/app/controllers/map_controller.rb:36-41 | none exactly when tx ∉ [0,79] or ty ∉ [0,44]; otherwise the stored tile |
| Tiles.Blocked | roguelike_oo/10/ascii/app/controllers/map_controller.rb:29-34 | every out-of-map coordinate is blocked; inside the map the answer is the tile's `blocking?` |
| Tiles.UnblockedIsFreeFloor | roguelike_oo/10/ascii/app/controllers/map_controller.rb:29-34 | a tile that is not blocked is an in-map floor with no occupant |
| Tiles.TileOccupant | roguelike_oo/10/ascii/app/controllers/map_controller.rb:43-48 | a reported occupant sits in the slot of an in-map floor; on a floor the answer is its slot; walls and out-of-map tiles report none |
| Tiles.OccupiedIsBlocked | roguelike_oo/10/ascii/app/entities/floor.rb:11 | a tile holding an occupant is always reported blocked |
| Tiles.SetOccupant | roguelike_oo/10/ascii/app/entities/floor.rb:3 | writing a floor's slot changes that slot only; terrain and every other slot stay as they were |
| Tiles.MapTiles | roguelike_oo/10/ascii/app/controllers/map_controller.rb:64-88 | 80×45 tiles of size 32 at (tx·32, ty·32); border tiles are walls; an interior tile is a wall iff its 0..8 draw is 0; no slot is filled; the earlier generator (roguelike_oo/04/ascii/app/controllers/map_controller.rb:51-75) is the same |
| Tiles.MapTilesWithoutRubble | 02/ascii/app/controllers/map_controller.rb:12-23 | a tile is a wall iff it lies on row 0, row 44, column 0 or column 79 |
| Tiles.WithoutRubbleIsAllFloorDraws | 02/ascii/app/controllers/map_controller.rb:12-31 | the deterministic map is the random one whose every draw is non-zero |
| Tiles.BlockedInlineAgrees | roguelike_oo/04/ascii/app/controllers/map_controller.rb:29-35 | the earlier `blocked?`, with its inline bounds test, answers like the `tile_at`-based one on every coordinate |
| Camera.Follow | roguelike_oo/10/ascii/app/controllers/map_controller.rb:15-19 | from [0, max] one axis stays in [0, max] and moves at most one step; it backs off only when the offset is below the buffer, advances only when it is above view − buffer, and stays when it is in between |
| Camera.Step | roguelike_oo/10/ascii/app/controllers/map_controller.rb:10-24 | for any view that fits on the map and holds both buffers, a camera in range stays in range; `Camera.StepMovesTowardZone` gives the direction of each move |
| Camera.Tick | roguelike_oo/10/ascii/app/controllers/map_controller.rb:10-24 | with the 832×720 play area, a camera in [0, max_x]×[0, max_y] stays there after a tick |
| Camera.StepMovesTowardZone | roguelike_oo/10/ascii/app/controllers/map_controller.rb:13-24 | each axis moves by at most one tile, only in the direction that brings the player's offset back toward the buffer zone, and not at all when the offset is inside it |
| Camera.TickFullScreen | roguelike_oo/04/ascii/app/controllers/map_controller.rb:10-24 | the earlier camera, with its 1280×720 view, stays in [0, 1280]×[0, 720] |
| Camera.OriginInRange | roguelike_oo/10/ascii/app/controllers/map_controller.rb:58-62 | the origin `load_map` sets is in range for every view that fits on the map, so each camera starts in range |
| Defender.TakeDamage | 10/ascii/app/behaviour/defender.rb:5-10 | hp becomes max(0, hp − damage): never negative, 0 when the damage covers hp, and max_hp and defense are untouched |
| Defender.LethalIffDamageCoversHp | 10/ascii/app/behaviour/defender.rb:5-14 | after the blow the defender is dead iff the damage was at least its hp |
| Defender.DamageNeverHeals | roguelike_oo/10/ascii/app/behaviour/defender.rb:9-14 | non-negative damage never raises hp, and zero damage changes nothing |
| Defender.DamageAccumulates | roguelike_oo/08/ascii/app/behaviour/defender.rb:9-14 | two blows in a row equal one blow of their sum |
| Defender.DeathIsFinal | 08/ascii/app/behaviour/defender.rb:5-15 | a dead defender stays exactly as it is under further damage |
| Dice.Roll | 10/ascii/app/dice/dice.rb:2-16 | the loop total is the sum of the `count` draws and lies in [count, 6·count]; rolling no dice gives 0 |
| Dice.SumBounds | 10/ascii/app/dice/dice.rb:3-7 | a sum of n faces, each in [lo, hi], lies in [n·lo, n·hi] |
| Attacker.Resolve | roguelike_oo/10/ascii/app/behaviour/attacker.rb:8-15 | a hit iff roll ≥ defense; on a hit it is a critical iff the roll is 20, and the damage is attack + crit_bonus on a 20 and attack otherwise |
| Attacker.CritDoesNotBypassDefense | roguelike_oo/10/ascii/app/behaviour/attacker.rb:14 | against a defense above 20 every roll misses, 20 included |
| Attacker.ResolveMonotoneInRoll | roguelike_oo/10/ascii/app/behaviour/attacker.rb:9-14 | a higher roll never turns a hit into a miss and never lowers the damage |
| Attacker.ResolveAlwaysHits | roguelike_oo/08/ascii/app/behaviour/attacker.rb:5-9 | the earliest attacker always hits, for exactly `attack`, with no roll |
| Attacker.AlwaysHitsIsUndefendedRoll | roguelike_oo/08/ascii/app/behaviour/attacker.rb:8 | the earliest attacker is the rolling one against defense 0 on a roll that is not critical |
| Attacker.CritPrefixIffCritical | roguelike_oo/10/ascii/app/behaviour/attacker.rb:16-22 | a log line begins with "CRIT! " exactly when it records a critical hit |
| Attacker.EventLine | roguelike_oo/10/ascii/app/behaviour/attacker.rb:16-22 | a hit line starts with the optional "CRIT! ", the attacker's name, " hit ", the target's name and " for ", and ends with the damage in decimal followed by " damage"; a miss line starts with the attacker's name and ends in "!" |
| Attacker.DecimalRoundTrip | roguelike_oo/10/ascii/app/behaviour/attacker.rb:17 | the interpolated damage is a non-empty run of digits that reads back as the number |
| Attacker.DamageReadsBack | roguelike_oo/10/ascii/app/behaviour/attacker.rb:16-22 | reading a log line back gives the damage dealt for a hit and nothing for a miss |
| Entities.TileOf | 09/ascii/app/entities/base.rb:33-39 | `map_tile_x`/`map_tile_y` give the tile whose strips contain the position |
| Entities.Placed | 10/ascii/app/entities/motile_entity.rb:5-10 | an entity spawned at tile (tx, ty) stands on that tile and is not yet bound |
| Entities.NewPlayer | roguelike_oo/10/ascii/app/entities/player.rb:7-19 | a new player stands on the requested tile, unbound, in the player faction, with 50 of 50 hp, defense 10, attack 3 and crit bonus 1 |
| Entities.NewZombie | roguelike_oo/10/ascii/app/entities/zombie.rb:3-7 | a new zombie stands on the requested tile, unbound, in the enemy faction, with the enemy's 10 hp, attack 1 and crit bonus 1 (roguelike_oo/09/ascii/app/entities/enemy.rb:7-13) and the zombie's defense 4 |
| Entities.NewPlayerAttack2 | 10/ascii/app/entities/player.rb:8-16 | the 10/ascii player stands on the requested tile, unbound, in the player faction (lines 43-45), with 50 of 50 hp, defense 10, attack 2 and crit 2 |
| Entities.NewPlayerNoCrit | 08/ascii/app/entities/player.rb:8-14 | the stage-08 player stands on the requested tile, unbound, with 50 hp and no maximum, defense 10, attack 2 and no critical bonus, and keeps the neutral default faction because its class declares none |
| Entities.FreshEntitiesAlive | roguelike_oo/10/ascii/app/entities/player.rb:10-14 | the player (hp = max_hp = 50) and a zombie start alive, as do the players of the other stages |
| Entities.DistanceFacts | 09/ascii/app/entities/base.rb:27-31 | the distance is zero exactly at the same position and is symmetric, so sight is mutual |
| Entities.DistanceSquared | 09/ascii/app/entities/base.rb:27-31 | the squared distance is never negative |
| Entities.Sees | roguelike_oo/09/ascii/app/entities/enemy.rb:26 | sight holds iff every whole number from 300 up squares to more than the squared distance, that is iff `Math.sqrt` of it is below 300; each axis is then less than 300 apart |
| Entities.TakeHit | roguelike_oo/10/ascii/app/entities/player.rb:53-56 | only hp changes, as `take_damage` computes it; the player's override also raises `took_damage` |
| Entities.DealDamage | roguelike_oo/10/ascii/app/behaviour/attacker.rb:5-24 | no effect and no line against a target without hit points; otherwise one resolution, the damage applied exactly on a hit, and exactly one log line |
| Entities.DealDamageFrame | roguelike_oo/10/ascii/app/behaviour/attacker.rb:5-24 | a blow changes nothing of the target but its hit points (and the player's flag) |
| Entities.DealDamageUnlogged | roguelike_oo/09/ascii/app/behaviour/attacker.rb:5-20 | the stage without an event log deals the same damage as the logging one |
| Entities.DealDamageAlwaysHits | roguelike_oo/08/ascii/app/behaviour/attacker.rb:5-9 | a target with hit points always takes exactly `attack`; any other target is unchanged |
| Entities.LoggedCritIffCritical | 10/ascii/app/behaviour/attacker.rb:14-22 | the logged line starts with "CRIT! " iff the roll is 20 and hits |
| Entities.PlayerCritOnZombie | roguelike_oo/10/ascii/app/behaviour/attacker.rb:9-18 | for any player and any zombie whose defense is at most 20, a natural 20 leaves the zombie at max(0, hp − attack − crit_bonus) with nothing else changed, and logs "CRIT! Player hit Zombie for N damage" with that N |
| Entities.HitLogsBothNames | roguelike_oo/10/ascii/app/behaviour/attacker.rb:9-18 | for any attacker and target, a roll that meets the defense applies the damage `Resolve` gives and logs "[CRIT! ]A hit B for N damage" with the attacker first, the target second and that damage, the prefix exactly on a 20 |
| Entities.MissLeavesTarget | roguelike_oo/10/ascii/app/behaviour/attacker.rb:14-23 | for any attacker and target, a roll below the target's defense leaves the target exactly as it was and logs "A missed B!" |
| EventLog.LogEvent | roguelike_oo/10/ascii/app/controllers/event_logs_controller.rb:12-15 | the new line goes in front, the old ones follow unchanged, and the logged-this-tick flag is set |
| EventLog.Labels | roguelike_oo/10/ascii/app/controllers/event_logs_controller.rb:5-10 | one label per line, in log order, at x = 16; the i-th newest sits at y = 650 − 40·i with alpha 255 − 15·i, so each is lower and fainter than the one before; 10/ascii/app/controllers/event_logs_controller.rb:15-21 places them the same way |
| EventLog.LogEventShiftsLabels | roguelike_oo/10/ascii/app/controllers/event_logs_controller.rb:5-14 | after logging, the new line is at the top fully opaque and every older label moves down 40 and fades by 15 |
| EventLog.RenderWindow | 10/ascii/app/controllers/event_logs_controller.rb:3-5 | the rendered part is the newest min(21, n) lines, a prefix of the log |
| EventLog.WindowShowsNewest | 10/ascii/app/controllers/event_logs_controller.rb:3-13 | the newest line is always shown, and storage is never truncated |
| Occupant.UpdateTile | 09/ascii/app/behaviour/occupant.rb:5-9 | the entity is bound to the tile under it, which names it; the old tile is emptied; no other slot changes |
| Occupant.UpdateTileKeepsSingleLink | roguelike_oo/07/ascii/app/behaviour/occupant.rb:5-9 | after rebinding, the new tile is the only slot naming the entity |
| Occupant.RebindInPlace | 09/ascii/app/behaviour/occupant.rb:6-8 | rebinding to the same tile leaves the entity bound there and changes no other slot |
| Occupant.FreeTileOnDeath | 09/ascii/app/behaviour/occupant.rb:11-13 | the bound tile's slot is emptied and no other slot changes |
| Occupant.FreeTileReleasesEntity | 09/ascii/app/behaviour/occupant.rb:11-13 | afterwards no slot names the dead entity |
| Movement.TargetTile | roguelike_oo/09/ascii/app/entities/mobile_entity.rb:26-27 | the target position lies inside the tile it converts to |
| Movement.Decide | roguelike_oo/09/ascii/app/entities/mobile_entity.rb:25-38 | the entity moves iff the target tile is not blocked; it attacks iff the tile is blocked, it can deal damage and the occupant is present, not neutral and of another faction. The other track (10/ascii/app/entities/motile_entity.rb:12-28) arbitrates the same way |
| Movement.MoveEntersFreeFloor | roguelike_oo/09/ascii/app/entities/mobile_entity.rb:34-37 | a move only ever enters an in-map, empty floor tile |
| Movement.NoAttackOnFriendOrNeutral | 10/ascii/app/entities/motile_entity.rb:15-20 | a same-faction or neutral occupant is never attacked, and an entity without `deal_damage` never attacks |
| Movement.DecideMoveOnly | 07/ascii/app/entities/mobile_entity.rb:12-22 | `attempt_move` never attacks |
| Movement.AttemptMoveIsMoveOnlyCase | 07/ascii/app/entities/mobile_entity.rb:12-22 | `attempt_move` equals `move_or_attack` for an actor without `deal_damage`, whatever the occupant |
| Movement.NextCounters | roguelike_oo/09/ascii/app/entities/mobile_entity.rb:13-17 | after a failed probe the radius stays, or it grows by one and the attempt count restarts |
| Movement.RadiusGrowsAfterFullRound | roguelike_oo/09/ascii/app/entities/mobile_entity.rb:13-17 | at radius r the search makes exactly 8r probes before the radius grows |
| Movement.SpawnSearch | roguelike_oo/09/ascii/app/entities/mobile_entity.rb:9-18 | a found tile is in the map and not blocked; a free starting tile is kept as it is; a probe off the map is reported; a search that finds nothing started on a blocked tile, and one that ran out of draws started inside the map |
| Movement.SpawnNear | roguelike_oo/09/ascii/app/entities/mobile_entity.rb:5-22 | a found tile is an empty floor; if the nominal tile is free, the entity spawns exactly there |
| Movement.SpawnStaysWithinReach | roguelike_oo/09/ascii/app/entities/mobile_entity.rb:10-11 | each probe moves at most the current radius per axis, so the tile found is within the summed radii of the start |
| Policy.TargetX | roguelike_oo/10/ascii/app/entities/player.rb:28-34 | x + 32 if right/d is held, else x − 32 if left/a is held, else x |
| Policy.TargetY | roguelike_oo/10/ascii/app/entities/player.rb:35-41 | y + 32 if up/w is held, else y − 32 if down/s is held, else y |
| Policy.TargetMovesIffKeyHeld | roguelike_oo/10/ascii/app/entities/player.rb:28-42 | the target differs from the position iff a movement key is held; each axis moves at most one tile; right with up gives a diagonal |
| Policy.DirectStep | 03/ascii/app/entities/player.rb:8-13 | each held key shifts the position by one tile with no check, so opposite keys cancel |
| Policy.DirectStepVersusTarget | 03/ascii/app/entities/player.rb:9-12 | the direct step agrees with the later target unless opposite keys are held, where it cancels while the later target favours right or up |
| Policy.SeekDirections | roguelike_oo/09/ascii/app/entities/enemy.rb:33-39 | left, right, up and down are candidates exactly when they close the gap on their axis |
| Policy.MoveTowards | roguelike_oo/09/ascii/app/entities/enemy.rb:49-61 | one tile along one axis (up is +y); the nil direction targets the current position |
| Policy.EnemyDirection | roguelike_oo/09/ascii/app/entities/enemy.rb:25-47 | within 300 pixels the direction is sampled from the seek candidates; otherwise it is one of the four cardinal directions |
| Policy.SeekStepCloses | roguelike_oo/09/ascii/app/entities/enemy.rb:33-42 | every seek step shortens the Manhattan distance to the player by exactly one tile |
| Policy.SeekEmptyIffSamePosition | roguelike_oo/09/ascii/app/entities/enemy.rb:36-40 | the seek candidates are empty exactly when the enemy stands on the player's position |
| Policy.StepStaysOnLattice | roguelike_oo/09/ascii/app/entities/enemy.rb:49-61 | stepping by whole tiles keeps a position on the 32-pixel lattice |
| World.MoveOrAttack | roguelike_oo/09/ascii/app/entities/mobile_entity.rb:25-41 | the outcome is the arbitration's; a move changes only the actor's position; an attack changes only the occupant and the log; otherwise nothing changes |
| World.PlayerTick | roguelike_oo/10/ascii/app/entities/player.rb:25-51 | the enemy count is kept and at most one line is logged; `World.PlayerActsIffMovedOrAttacked` and `Invariants.PlayerTickCore` carry the rest of its behaviour |
| World.PlayerActsIffMovedOrAttacked | roguelike_oo/10/ascii/app/entities/player.rb:25-51 | `took_action` ends true iff a key is held and `move_or_attack` moved or attacked; otherwise the state is the old one with the flag cleared; the 10/ascii and 08/ascii player ticks decide their action the same way |
| World.EnemyAct | roguelike_oo/09/ascii/app/entities/enemy.rb:25-65 | an enemy's act never moves the camera or touches `took_action`, and logs at most one line; `Invariants.EnemyActStep` carries the rest |
| World.EnemyTick | roguelike_oo/09/ascii/app/entities/enemy.rb:15-23 | a dead enemy changes no entity, no log line and no terrain, only freeing its tile; the camera and `took_action` are kept; `Invariants.EnemyTickStep` carries the rest |
| World.TickFrom | 09/ascii/app/controllers/enemy_controller.rb:6 | ticking the enemies never moves the camera or touches `took_action`, and logs at most one line per enemy; `Invariants.TickFromKeeps` carries the rest |
| World.FilterAlive | 09/ascii/app/controllers/enemy_controller.rb:7 | the result holds exactly the living members and is no longer than the list |
| World.FilterAliveAppend | 09/ascii/app/controllers/enemy_controller.rb:7 | filtering works element by element, so the survivors keep their relative order |
| World.FilterAliveKeepsLiving | 09/ascii/app/controllers/enemy_controller.rb:7 | a list of living entities passes the filter unchanged |
| World.EnemyControllerTick | 09/ascii/app/controllers/enemy_controller.rb:3-8 | nothing changes unless the player took an action; otherwise the enemies afterwards are exactly the living ones among the ticked enemies, in their order (with `World.FilterAlive` and `World.FilterAliveAppend`), so all are alive and their number never grows |
| World.GameTick | 10/ascii/app/controllers/game_controller.rb:8-11 | a turn never adds enemies |
| World.IdleTurnFreezesEnemies | 10/ascii/app/controllers/game_controller.rb:8-11 | a turn in which the player does not act changes nothing but the cleared `took_action` |
| World.SpawnEnemies | 09/ascii/app/controllers/enemy_controller.rb:10-30 | one zombie per draw, numbered in order, each on an empty floor tile |
| World.Reset | 10/ascii/app/controllers/game_controller.rb:34-39 | the log is empty; the map is freshly generated with the camera at its origin; no slot is filled; the player is a new player with id 0 on the tile `spawn_near(state, 10, 11)` finds; the 30 zombies are the ones `spawn_enemies` creates, numbered from 1; the reset fails exactly when one of those searches fails |
| Links.LinkedAfterDamage | roguelike_oo/10/ascii/app/behaviour/attacker.rb:14-15 | damaging an entity in place keeps the occupancy links |
| Links.LinkedAfterRebind | 09/ascii/app/behaviour/occupant.rb:5-9 | rebinding a moved entity keeps the links and only empties slots or writes the mover's id |
| Links.LinkedAfterFree | 09/ascii/app/behaviour/occupant.rb:11-13 | freeing a dead entity's tile keeps the links, leaves nothing naming it and only empties slots |
| Links.FilterAliveUnique | 09/ascii/app/controllers/enemy_controller.rb:7 | dropping the dead keeps ids unique |
| Links.LinkedAfterFilter | 09/ascii/app/controllers/enemy_controller.rb:6-7 | once every dead enemy has released its tile, dropping the dead keeps the links |
| Invariants.HostileToEnemyIsPlayer | roguelike_oo/09/ascii/app/entities/mobile_entity.rb:30 | under the invariant the only entity a zombie finds hostile is the player |
| Invariants.RebindConsistent | 09/ascii/app/behaviour/occupant.rb:5-9 | the block's `update_tile` on a floor tile keeps the links and roles |
| Invariants.DamageConsistent | roguelike_oo/10/ascii/app/behaviour/attacker.rb:14-15 | writing back a damaged, bound combatant keeps the links and roles |
| Invariants.DamageKeepsTarget | roguelike_oo/10/ascii/app/behaviour/defender.rb:9-14 | a blow leaves the target a combatant with the same identity, position and binding, and hp ≥ 0 |
| Invariants.PlayerMovedCore | roguelike_oo/10/ascii/app/entities/player.rb:44-50 | the player's move with its block keeps the invariant |
| Invariants.PlayerAttackedCore | roguelike_oo/10/ascii/app/entities/player.rb:44-50 | the player's attack with its block keeps the invariant |
| Invariants.PlayerTickCore | roguelike_oo/10/ascii/app/entities/player.rb:25-51 | the player's tick keeps the invariant and leaves `took_damage` as it was |
| Invariants.EnemyMovedStep | roguelike_oo/09/ascii/app/entities/enemy.rb:49-65 | an enemy's move with its block keeps the invariant and touches no other enemy |
| Invariants.ZombieHitsPlayer | roguelike_oo/10/ascii/app/behaviour/attacker.rb:14-15 | a zombie's blow on the player keeps the invariant, changes no enemy and can only raise `took_damage` |
| Invariants.EnemyAttackedStep | roguelike_oo/09/ascii/app/entities/enemy.rb:62-64 | an enemy's attack hits the player, and the block keeps the invariant |
| Invariants.EnemyActStep | roguelike_oo/09/ascii/app/entities/enemy.rb:25-65 | a living enemy's `act` keeps the invariant, changes no other enemy and only writes its own id |
| Invariants.DeadEnemyStep | roguelike_oo/09/ascii/app/entities/enemy.rb:15-22 | a dead enemy is always bound, so `free_tile_on_death` finds its tile; afterwards nothing names it |
| Invariants.FreeKeepsCore | 09/ascii/app/behaviour/occupant.rb:11-13 | freeing an enemy's tile keeps the invariant and only empties slots |
| Invariants.LivingEnemyStep | roguelike_oo/09/ascii/app/entities/enemy.rb:15-19 | a living enemy's tick leaves every already-freed dead enemy unreferenced |
| Invariants.EnemyTickStep | roguelike_oo/09/ascii/app/entities/enemy.rb:15-23 | each enemy tick advances the loop invariant by one enemy |
| Invariants.TickFromKeeps | 09/ascii/app/controllers/enemy_controller.rb:6 | ticking every enemy in list order keeps the invariant, and afterwards every dead enemy is unreferenced |
| Invariants.EnemyControllerValid | 09/ascii/app/controllers/enemy_controller.rb:3-8 | the enemy controller restores the full invariant: no dead enemy remains and nothing refers to one |
| Invariants.GameTickValid | 10/ascii/app/controllers/game_controller.rb:8-11 | a whole turn, player first, keeps the invariant. It also shows that `took_damage` never falls: the tick clears the misspelled `@took_damange` (roguelike_oo/10/ascii/app/entities/player.rb:27) |
| Invariants.SpawnedZombiesFresh | 09/ascii/app/controllers/enemy_controller.rb:10-30 | every spawned zombie is alive, unbound and on a floor tile of the lattice, numbered in order |
| Invariants.FreshStateValid | 10/ascii/app/controllers/game_controller.rb:34-39 | empty slots, the camera at the origin and fresh, distinctly numbered entities form a valid state |
| Invariants.ResetValid | 10/ascii/app/controllers/game_controller.rb:34-39 | `reset` establishes the invariant, with player id 0 and `took_damage` clear |
| Stages.PlayerTickMoveOnly | 07/ascii/app/entities/player.rb:10-33 | when the move-only player acts, it stands on its target and is bound to the tile there |
| Stages.MoveOnlyActsIffFree | 07/ascii/app/entities/player.rb:26-32 | the move-only player acts iff a key is held and the target tile is free; otherwise only the flag is cleared |
| Stages.MoveOnlyTickIsUnarmedCase | 07/ascii/app/entities/player.rb:28-32 | for a player without `deal_damage` the current tick equals the move-only tick |
| Stages.PlayerTickScrolling | 04/ascii/app/entities/player.rb:8-26 | the full-screen camera stays in range, and the player either stays put or reaches its target |
| Stages.IdleTickStillScrolls | 04/ascii/app/entities/player.rb:23-25 | with no key held the earlier tick still runs its block and scrolls the camera, while the current tick does nothing |
| Stages.ScrollingAgreesWithMoveOnly | 04/ascii/app/entities/player.rb:9-25 | when a key is held the earlier tick puts the player where the move-only tick does |
| Stages.PatrolMovesOneTile | 05/ascii/app/entities/enemy.rb:9-21 | a patrol step stays put or moves exactly one tile along one axis onto a free floor; every direction can be drawn |
| Stages.LaterPatrolIsFirstPatrol | roguelike_oo/09/ascii/app/entities/enemy.rb:44-47 | out of sight of the player, the later enemy draws its direction exactly as the first patrolling enemy did |
| Stages.PatrolTick | 05/ascii/app/entities/enemy.rb:3-21 | a patrol step changes only the enemy's position, and only onto an unblocked tile; `Stages.PatrolMovesOneTile` gives the size of the step |
| Stages.EnemyActMoveOnly | 07/ascii/app/entities/enemy.rb:11-51 | the move-only enemy changes neither the log nor the number of enemies, never moves the camera and leaves `took_action` alone |
| Stages.MoveOnlyActIsUnarmedCase | 07/ascii/app/entities/enemy.rb:35-51 | for an enemy without `deal_damage` the current `act` equals the move-only one, whatever the roll |
| Stages.MoveOnlyActSparesPlayer | 07/ascii/app/entities/enemy.rb:48-50 | a move-only enemy never changes the player, and ids stay unique |
| Stages.TickFromMoveOnly | 07/ascii/app/controllers/enemy_controller.rb:6 | ticking move-only enemies logs nothing and never moves the camera or touches `took_action`; `Stages.MoveOnlyEnemiesSparePlayer` adds that the player is untouched |
| Stages.MoveOnlyEnemiesSparePlayer | 07/ascii/app/controllers/enemy_controller.rb:5-6 | ticking every move-only enemy leaves the player unchanged |
| Stages.EnemyControllerTickMoveOnly | 07/ascii/app/controllers/enemy_controller.rb:3-7 | nothing changes unless the player acted, and no enemy is ever removed |
| Stages.MoveOnlyControllerSparesPlayer | 07/ascii/app/controllers/enemy_controller.rb:3-7 | a combat-free controller turn never changes the player |
| Stages.SpawnEnemiesUnchecked | 07/ascii/app/controllers/enemy_controller.rb:9-28 | the existing enemies stay in front; one zombie per draw is appended, numbered in order, on an in-map tile, with no free-tile check |
| Stages.SearchKeepsFreeNominalTile | roguelike_oo/09/ascii/app/entities/mobile_entity.rb:8-22 | when the drawn tile is free, the searching spawner places the zombie exactly where the unchecked one does |

## Left out

- Rendering is left out: render targets, sprites, labels, `serialize`/`inspect`/`to_s`, the render positions (`@x = map_x - map.x`), `tile.tick` and the redraw flags. It affects only the display.
- HUD formatting (`stats_labels`, `hp_string`, `hp_string_color`) is display only.
- The host loop, the `$gtk` globals, the title screens and the `require` lists are left out. State is passed explicitly instead.
- Console output (`puts`) is left out; it has no effect on the state.
- The early scaffolding game controllers and the sprite-record base classes are left out. They hold no decision logic.
- The d20 subclass `app/dice/d20.rb` is not part of this model. Its roll is a parameter with 1 ≤ roll ≤ 20.
- `rand`, `sample` and the dice draws are oracle arguments. Each stands for one outcome of the random choice; no distribution is modelled.
- Entities.DistanceSquared: `Math.sqrt` is replaced by comparing the squared distance with 300². The two agree on integer positions, but floating point is not modelled.
- Movement.SpawnSearch: the source loop has no termination bound. The model takes a finite list of draws and answers `Exhausted` when they run out. A probe outside the map, where the source's arrays would wrap around or yield nil, gives `OffGrid` instead.
- World.Reset: a failed search makes the whole reset `None`. The source behaves in one of four ways instead. Most often it keeps searching and succeeds: a probe in row 45 reads `tiles[x][45]`, which is nil, and a negative index can wrap onto a wall (from x = 0, the draw −1 reads column 79, a border wall); both make the loop continue, and the walk can come back into the map and end on a free floor, so the source's reset succeeds where the model answers `OffGrid`. It loops forever when its draws never find a free tile. It crashes on a column past the right edge, because `tiles[80]` is nil. It can also return an entity placed outside the map, because Ruby wraps negative array indices (roguelike_oo/09/ascii/app/entities/mobile_entity.rb:10-12, 19-22). For example, from x = 0 a radius-2 draw can give −3; `tiles[-3]` is column 77, and if that tile is a free floor the loop ends and the entity is created at map_x = −96. The model turns every one of these cases into `None`, so `World.Reset` fails for some draws on which the source succeeds.
- World.SpawnEnemies models a fresh session, in which `state.enemies ||= []` starts from an empty list. The earlier spawner's append to an existing list is modelled in `Stages.SpawnEnemiesUnchecked`.
- Occupant.UpdateTile: binding a wall fails in the source, but in the model it leaves the grid alone. The invariant proves that this case never arises.
- Occupant.FreeTileOnDeath: the source fails on an entity that never bound a tile, but the model leaves the grid alone. `Invariants.DeadEnemyStep` proves that this case never arises.
- World.OccupantAt: an occupant id that no entity carries is treated as no occupant. The invariant proves that this never happens.
- The occupancy invariant covers one direction only: a slot naming an entity is the tile that entity is bound to. The reverse direction (a bound entity is named by its tile) does not hold in the source. Spawns never bind a tile, so two zombies may share a spawn tile, and the first to move empties the other's slot.
- `Base` position defaults of (0, 0) and the render position copied from the map position are left out. They matter only for display.
- `respond_to?` is modelled by the presence of the `offense` and `vitals` parts of an entity, not by method lookup.
- The 10/ascii track names the attacker and target in log lines with `self.class.name`, which its classes override to "Player" and "Zombie". The model uses the same names, and the text is identical.
- The 10/ascii event log has no logged-this-tick flag. `EventLog.LogEvent` sets the flag of the roguelike_oo/10 track, and the 10/ascii track simply does not read it.
- The motile-entity base classes of stages 04, 05 and 07, and the 04/ascii and 07/ascii map controllers, are not part of this model. Their `attempt_move` is taken to be that of 07/ascii/app/entities/mobile_entity.rb, and their camera that of roguelike_oo/04/ascii/app/controllers/map_controller.rb (stage 04) or of the current map controller (stage 07).
- World.GameTick states only that a turn never adds enemies. Its full behaviour is covered by `World.IdleTurnFreezesEnemies` and `Invariants.GameTickValid`.
- Stages.EnemyActMoveOnly states only a frame of its own. Its behaviour is given by `Stages.MoveOnlyActIsUnarmedCase`, which equates it with the current `act`.
