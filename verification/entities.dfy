/** Entities: the player and the zombies as one record whose capabilities
    (`Attacker`, `Defender`) are optional parts, together with the `Base`
    defaults and the entity-level combat calls. */
module Entities {
  import opened Common
  import opened Geometry
  import opened Defender
  import opened Attacker

  /** The concrete class of an entity; it only decides the name in log lines. */
  datatype Kind = PlayerKind | ZombieKind

  /** `faction`: 'player', 'enemy' or the `Base` default 'neutral'. */
  datatype Faction = PlayerFaction | EnemyFaction | Neutral

  /** `Base#faction` for classes that do not override it. */
  const DefaultFaction: Faction := Neutral

  /** `MobileEntity#blocking?`: every entity that moves blocks its tile. */
  const MobileBlocking: bool := true

  /** A mobile entity. `mapX`/`mapY` is its world position; `tile` is the tile
      it last bound itself to (`Occupant#tile`, nil until the first binding);
      `offense` and `vitals` are present exactly when the class includes
      `Attacker` and `Defender`; `tookDamage` is the player's damage flag. */
  datatype Entity = Entity(
    id: EntityId,
    kind: Kind,
    faction: Faction,
    mapX: int,
    mapY: int,
    tile: Option<Coord>,
    offense: Option<Offense>,
    vitals: Option<Vitals>,
    tookDamage: bool)

  /** `name` as used in log lines. */
  function Name(k: Kind): string {
    match k
    case PlayerKind => "Player"
    case ZombieKind => "Zombie"
  }

  /** `respond_to?(:deal_damage)` */
  predicate CanDealDamage(e: Entity) { e.offense.Some? }

  /** `respond_to?(:take_damage)` */
  predicate CanTakeDamage(e: Entity) { e.vitals.Some? }

  /** `alive?`, for entities that have hit points. */
  predicate IsAlive(e: Entity) {
    e.vitals.Some? && Alive(e.vitals.value)
  }

  /** `map_tile_x`, `map_tile_y`: the tile under the entity's position. The
      row is computed with the x converter, which agrees with the y converter
      because tiles are square. */
  function TileOf(e: Entity): (c: Coord)
    ensures c == Coord(MapXToTileX(e.mapX), MapYToTileY(e.mapY))
  {
    TileConvertersAgree(e.mapY);
    Coord(MapXToTileX(e.mapX), MapXToTileX(e.mapY))
  }

  /** An entity placed on tile (tx, ty) by `spawn`: its position is the tile's
      lower-left corner, and it has not bound any tile yet. */
  function Placed(id: EntityId, kind: Kind, faction: Faction, tx: int, ty: int,
                  offense: Option<Offense>, vitals: Option<Vitals>): (e: Entity)
    ensures TileOf(e) == Coord(tx, ty) && e.tile.None?
  {
    TileRoundTrip(tx, 0);
    TileRoundTrip(ty, 0);
    Entity(id, kind, faction, tx * SpriteWidth, ty * SpriteHeight, None, offense, vitals, false)
  }

  /** The player of the current stage: 50/50 hp, defense 10, attack 3, crit
      bonus 1. */
  function NewPlayer(id: EntityId, tx: int, ty: int): (e: Entity)
    ensures e.id == id && TileOf(e) == Coord(tx, ty) && e.tile.None? && !e.tookDamage
    ensures e.kind == PlayerKind && e.faction == PlayerFaction
    ensures e.offense == Some(Offense(3, 1)) && e.vitals == Some(Vitals(50, Some(50), 10))
  {
    Placed(id, PlayerKind, PlayerFaction, tx, ty, Some(Offense(3, 1)), Some(Vitals(50, Some(50), 10)))
  }

  /** The player of the other track's last stage: attack 2, crit 2. */
  function NewPlayerAttack2(id: EntityId, tx: int, ty: int): (e: Entity)
    ensures e.id == id && TileOf(e) == Coord(tx, ty) && e.tile.None? && !e.tookDamage
    ensures e.kind == PlayerKind && e.faction == PlayerFaction
    ensures e.offense == Some(Offense(2, 2)) && e.vitals == Some(Vitals(50, Some(50), 10))
  {
    Placed(id, PlayerKind, PlayerFaction, tx, ty, Some(Offense(2, 2)), Some(Vitals(50, Some(50), 10)))
  }

  /** The first combat player: 50 hp (no max), defense 10, attack 2 and no
      critical bonus. Its class declares no faction, so it keeps the default. */
  function NewPlayerNoCrit(id: EntityId, tx: int, ty: int): (e: Entity)
    ensures e.id == id && TileOf(e) == Coord(tx, ty) && e.tile.None? && !e.tookDamage
    ensures e.kind == PlayerKind && e.faction == Neutral
    ensures e.offense == Some(Offense(2, 0)) && e.vitals == Some(Vitals(50, None, 10))
  {
    Placed(id, PlayerKind, DefaultFaction, tx, ty, Some(Offense(2, 0)), Some(Vitals(50, None, 10)))
  }

  /** A zombie: the enemy's 10 hp, attack 1 and crit bonus 1, with the
      zombie's defense 4 replacing the enemy's 0. */
  function NewZombie(id: EntityId, tx: int, ty: int): (e: Entity)
    ensures e.id == id && TileOf(e) == Coord(tx, ty) && e.tile.None? && !e.tookDamage
    ensures e.kind == ZombieKind && e.faction == EnemyFaction
    ensures e.offense == Some(Offense(1, 1)) && e.vitals == Some(Vitals(10, None, 4))
  {
    Placed(id, ZombieKind, EnemyFaction, tx, ty, Some(Offense(1, 1)), Some(Vitals(10, None, 4)))
  }

  /** A pre-combat entity: no capabilities and the neutral default faction. */
  function NewMover(id: EntityId, kind: Kind, tx: int, ty: int): Entity {
    Placed(id, kind, DefaultFaction, tx, ty, None, None)
  }

  /** Every combatant starts alive, at full hit points where it has a maximum. */
  lemma FreshEntitiesAlive(id: EntityId, tx: int, ty: int)
    ensures IsAlive(NewPlayer(id, tx, ty)) && IsAlive(NewZombie(id, tx, ty))
    ensures IsAlive(NewPlayerAttack2(id, tx, ty)) && IsAlive(NewPlayerNoCrit(id, tx, ty))
    ensures var v := NewPlayer(id, tx, ty).vitals.value; v.maxHp == Some(v.hp)
  {
  }

  /** `VISIBLE_RANGE` */
  const VisibleRange: int := 300

  /** The square of `linear_distance_to`; comparing squares avoids the square
      root and agrees with it on integer positions. */
  function DistanceSquared(a: Entity, b: Entity): (d: int)
    ensures d >= 0
  {
    var dx := b.mapX - a.mapX;
    var dy := b.mapY - a.mapY;
    dx * dx + dy * dy
  }

  function Square(d: int): int { d * d }

  /** `linear_distance_to(player) < VISIBLE_RANGE`: the Euclidean distance is
      below 300 exactly when every whole number from 300 up squares to more
      than the squared distance. */
  function Sees(a: Entity, b: Entity): (r: bool)
    ensures r <==> forall d :: VisibleRange <= d ==> DistanceSquared(a, b) < Square(d)
    ensures r ==> Abs(a.mapX - b.mapX) < VisibleRange && Abs(a.mapY - b.mapY) < VisibleRange
  {
    if DistanceSquared(a, b) < VisibleRange * VisibleRange then
      forall d | VisibleRange <= d ensures DistanceSquared(a, b) < Square(d) {
        SquareMonotone(VisibleRange, d);
      }
      AxisWithinDistance(a, b);
      true
    else
      assert Square(VisibleRange) <= DistanceSquared(a, b);
      false
  }

  lemma SquareMonotone(x: int, y: int)
    requires 0 <= x <= y
    ensures Square(x) <= Square(y)
  {
    assert x * x <= x * y <= y * y;
  }

  /** Neither axis is further apart than the whole distance. */
  lemma AxisWithinDistance(a: Entity, b: Entity)
    requires DistanceSquared(a, b) < VisibleRange * VisibleRange
    ensures Abs(a.mapX - b.mapX) < VisibleRange && Abs(a.mapY - b.mapY) < VisibleRange
  {
    var dx := Abs(b.mapX - a.mapX);
    var dy := Abs(b.mapY - a.mapY);
    assert dx * dx == (b.mapX - a.mapX) * (b.mapX - a.mapX);
    assert dy * dy == (b.mapY - a.mapY) * (b.mapY - a.mapY);
    if dx >= VisibleRange {
      SquareMonotone(VisibleRange, dx);
    }
    if dy >= VisibleRange {
      SquareMonotone(VisibleRange, dy);
    }
  }

  /** Distance zero exactly at the same position; distance and sight are
      mutual. */
  lemma DistanceFacts(a: Entity, b: Entity)
    ensures DistanceSquared(a, b) == 0 <==> (a.mapX == b.mapX && a.mapY == b.mapY)
    ensures DistanceSquared(a, b) == DistanceSquared(b, a)
    ensures Sees(a, b) <==> Sees(b, a)
  {
    var dx := b.mapX - a.mapX;
    var dy := b.mapY - a.mapY;
    assert (a.mapX - b.mapX) * (a.mapX - b.mapX) == dx * dx;
    assert (a.mapY - b.mapY) * (a.mapY - b.mapY) == dy * dy;
    if dx != 0 {
      assert dx * dx > 0;
    }
    if dy != 0 {
      assert dy * dy > 0;
    }
  }

  /** `take_damage` on an entity with hit points; the player's override also
      raises its `took_damage` flag. */
  function TakeHit(e: Entity, damage: int): (r: Entity)
    requires CanTakeDamage(e)
    ensures r.vitals == Some(TakeDamage(e.vitals.value, damage))
    ensures r.tookDamage == (e.tookDamage || e.kind == PlayerKind)
    ensures r.(vitals := e.vitals, tookDamage := e.tookDamage) == e
  {
    e.(vitals := Some(TakeDamage(e.vitals.value, damage)),
       tookDamage := e.tookDamage || e.kind == PlayerKind)
  }

  /** `deal_damage(other)` of the current stage: nothing at all against a
      target without hit points; otherwise one d20 resolution, the damage
      applied on a hit, and exactly one log line either way. Returns the
      updated target and the line to log. */
  function DealDamage(attacker: Entity, target: Entity, roll: int): (r: (Entity, Option<string>))
    requires CanDealDamage(attacker) && IsD20(roll)
    ensures !CanTakeDamage(target) ==> r == (target, None)
    ensures CanTakeDamage(target) ==> r.1.Some?
    ensures CanTakeDamage(target) ==>
      var res := Resolve(attacker.offense.value, target.vitals.value.defense, roll);
      && r.1 == Some(EventLine(Name(attacker.kind), Name(target.kind), res))
      && r.0 == (if res.Hit? then TakeHit(target, res.damage) else target)
  {
    if !CanTakeDamage(target) then (target, None)
    else
      var res := Resolve(attacker.offense.value, target.vitals.value.defense, roll);
      var line := EventLine(Name(attacker.kind), Name(target.kind), res);
      match res
      case Hit(damage, _) => (TakeHit(target, damage), Some(line))
      case Miss => (target, Some(line))
  }

  /** Only the target's hit points (and the player's damage flag) can change;
      its identity, position, binding, faction and offense are untouched. */
  lemma DealDamageFrame(attacker: Entity, target: Entity, roll: int)
    requires CanDealDamage(attacker) && IsD20(roll)
    ensures var t := DealDamage(attacker, target, roll).0;
      t.id == target.id && t.kind == target.kind && t.faction == target.faction &&
      t.mapX == target.mapX && t.mapY == target.mapY && t.tile == target.tile &&
      t.offense == target.offense && t.vitals.Some? == target.vitals.Some?
  {
  }

  /** `deal_damage` of the stage before the event log: the same resolution and
      damage, but nothing is logged (the roll is only printed). */
  function DealDamageUnlogged(attacker: Entity, target: Entity, roll: int): (t: Entity)
    requires CanDealDamage(attacker) && IsD20(roll)
    ensures t == DealDamage(attacker, target, roll).0
  {
    if !CanTakeDamage(target) then target
    else
      match Resolve(attacker.offense.value, target.vitals.value.defense, roll)
      case Hit(damage, _) => TakeHit(target, damage)
      case Miss => target
  }

  /** `deal_damage` of the first combat stage: no roll; a target with hit
      points always takes exactly `attack`. */
  function DealDamageAlwaysHits(attacker: Entity, target: Entity): (t: Entity)
    requires CanDealDamage(attacker)
    ensures !CanTakeDamage(target) ==> t == target
    ensures CanTakeDamage(target) ==> t == TakeHit(target, attacker.offense.value.attack)
  {
    if !CanTakeDamage(target) then target
    else TakeHit(target, ResolveAlwaysHits(attacker.offense.value).damage)
  }

  /** The log line starts with "CRIT! " exactly when the blow was a critical
      hit, for both names an attacker can have. */
  lemma LoggedCritIffCritical(attacker: Entity, target: Entity, roll: int)
    requires CanDealDamage(attacker) && IsD20(roll) && CanTakeDamage(target)
    ensures var line := DealDamage(attacker, target, roll).1.value;
      var hit := roll >= target.vitals.value.defense;
      (|line| >= |CritPrefix| && line[..|CritPrefix|] == CritPrefix) <==> (hit && roll == CritRoll)
  {
    CritPrefixIffCritical(Name(attacker.kind), Name(target.kind),
      Resolve(attacker.offense.value, target.vitals.value.defense, roll));
  }

  /** The player's natural 20 on any zombie whose defense a 20 can meet:
      `attack` + `crit_bonus` damage, hit points saturating at zero, and a
      "CRIT! " line naming both and reporting that damage. */
  lemma PlayerCritOnZombie(p: Entity, z: Entity)
    requires p.kind == PlayerKind && CanDealDamage(p)
    requires z.kind == ZombieKind && CanTakeDamage(z) && z.vitals.value.defense <= CritRoll
    ensures var o := p.offense.value;
      var hp := z.vitals.value.hp - (o.attack + o.critBonus);
      var r := DealDamage(p, z, CritRoll);
      && r.0 == z.(vitals := Some(z.vitals.value.(hp := if hp > 0 then hp else 0)))
      && r.1 == Some("CRIT! Player hit Zombie for " + IntToString(o.attack + o.critBonus) + " damage")
  {
    var o := p.offense.value;
    var damage := o.attack + o.critBonus;
    assert Resolve(o, z.vitals.value.defense, CritRoll) == Hit(damage, true);
    assert HitHead("Player", "Zombie", true) == "CRIT! Player hit Zombie for ";
  }

  /** Any attacker's roll that meets the target's defense: the damage
      `Resolve` gives is applied, and the line names the attacker, then the
      target, then that damage, after "CRIT! " exactly on a 20. */
  lemma HitLogsBothNames(a: Entity, t: Entity, roll: int)
    requires CanDealDamage(a) && CanTakeDamage(t) && IsD20(roll) && roll >= t.vitals.value.defense
    ensures var damage := Resolve(a.offense.value, t.vitals.value.defense, roll).damage;
      DealDamage(a, t, roll) == (TakeHit(t, damage),
        Some((if roll == CritRoll then CritPrefix else "") + Name(a.kind) + " hit " + Name(t.kind) + " for " +
             IntToString(damage) + DamageSuffix))
  {
  }

  /** Any attacker's roll below the target's defense: the target is left
      exactly as it was, and the miss is logged under both names. */
  lemma MissLeavesTarget(a: Entity, t: Entity, roll: int)
    requires CanDealDamage(a) && CanTakeDamage(t) && IsD20(roll) && roll < t.vitals.value.defense
    ensures DealDamage(a, t, roll) == (t, Some(Name(a.kind) + " missed " + Name(t.kind) + "!"))
  {
    assert Resolve(a.offense.value, t.vitals.value.defense, roll) == Miss;
  }
}
