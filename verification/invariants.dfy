/** The world invariant and its preservation by every step of a turn: the
    occupancy links stay consistent, the camera stays clamped, every entity
    keeps its role, and after the enemy controller has run only living enemies
    remain. `reset` establishes it. */
module Invariants {
  import opened Common
  import opened Geometry
  import opened Tiles
  import Cam = Camera
  import opened Attacker
  import opened Entities
  import opened Occupant
  import opened Movement
  import opened Policy
  import opened World
  import opened Links

  /** A combatant: it can attack and be attacked, and its hit points never go
      below zero. */
  predicate Sound(e: Entity) {
    CanDealDamage(e) && CanTakeDamage(e) && e.vitals.value.hp >= 0
  }

  predicate IsPlayer(e: Entity) {
    e.kind == PlayerKind && e.faction == PlayerFaction && Sound(e)
  }

  predicate IsZombie(e: Entity) {
    e.kind == ZombieKind && e.faction == EnemyFaction && Sound(e)
  }

  /** The player is the player and every enemy is a zombie. */
  predicate Roles(s: State) {
    IsPlayer(s.player) && forall e :: e in s.enemies ==> IsZombie(e)
  }

  /** `e` may stand in for `x`: same class and faction, still a combatant. */
  predicate SameRole(x: Entity, e: Entity) {
    x.kind == e.kind && x.faction == e.faction && Sound(e)
  }

  /** The occupancy links and the roles: the part of the invariant a
      camera move has no part in. */
  ghost predicate Consistent(s: State) {
    Linked(s.grid, Ents(s)) && Roles(s) && DeadBound(s)
  }

  /** Every dead entity is bound to a tile: only an entity some slot names can
      be hit, and a named entity is bound. So `free_tile_on_death`, which
      fails on an unbound entity, always finds a tile. */
  predicate DeadBound(s: State) {
    forall e :: e in Ents(s) && !IsAlive(e) ==> e.tile.Some?
  }

  /** Writing back an entity that is bound whenever it is dead keeps every
      dead entity bound. */
  lemma PutDeadBound(s: State, e: Entity)
    requires DeadBound(s) && (!IsAlive(e) ==> e.tile.Some?)
    ensures DeadBound(Put(s, e))
  {
    ReplaceMembers(Ents(s), e);
  }

  /** What holds between any two steps of a turn. */
  ghost predicate Core(s: State) {
    Consistent(s) && Cam.InRange(s.camera, PlayAreaWidth, PlayAreaHeight)
  }

  /** What holds between turns: the core, and no dead enemy is left. */
  ghost predicate Valid(s: State) {
    Core(s) && forall e :: e in s.enemies ==> IsAlive(e)
  }

  /** Writing back an entity that keeps the role of the one it replaces keeps
      every role. */
  lemma PutRoles(s: State, e: Entity)
    requires Roles(s)
    requires forall x :: x in Ents(s) && x.id == e.id ==> SameRole(x, e)
    ensures Roles(Put(s, e))
  {
    var r := Put(s, e);
    assert Ents(s)[0] == s.player;
    assert r.enemies == Replace(s.enemies, e);
    forall k | 0 <= k < |r.enemies|
      ensures IsZombie(r.enemies[k])
    {
      var x := s.enemies[k];
      assert Ents(s)[k + 1] == x;
      assert IsZombie(x);
      if x.id == e.id {
        assert SameRole(x, e);
      }
    }
    assert forall y :: y in r.enemies ==> IsZombie(y);
  }

  /** The player and the k-th enemy carry different ids. */
  lemma EnemyIsNotPlayer(s: State, k: nat)
    requires UniqueIds(Ents(s)) && k < |s.enemies|
    ensures s.enemies[k].id != s.player.id
  {
    assert Ents(s)[0] == s.player && Ents(s)[k + 1] == s.enemies[k];
  }

  /** Two enemies at different positions of the list carry different ids. */
  lemma EnemiesDistinct(s: State, j: nat, k: nat)
    requires UniqueIds(Ents(s)) && j < |s.enemies| && k < |s.enemies| && j != k
    ensures s.enemies[j].id != s.enemies[k].id
  {
    assert Ents(s)[j + 1] == s.enemies[j] && Ents(s)[k + 1] == s.enemies[k];
  }

  /** The entity a slot names is one of the state's entities; if it is of the
      enemy faction and roles hold, it is not the player. */
  lemma HostileToPlayerIsEnemy(s: State, other: Entity)
    requires Roles(s) && other in Ents(s) && other.faction != PlayerFaction
    ensures other in s.enemies && IsZombie(other)
  {
    var k :| 0 <= k < |Ents(s)| && Ents(s)[k] == other;
    assert k != 0;
    assert s.enemies[k - 1] == other;
  }

  /** An enemy can only ever attack the player: every other entity is of its
      own faction. */
  lemma HostileToEnemyIsPlayer(s: State, e: Entity, other: Entity)
    requires Roles(s) && IsZombie(e) && other in Ents(s) && Hostile(e, other)
    ensures other == s.player
  {
    var k :| 0 <= k < |Ents(s)| && Ents(s)[k] == other;
  }

  /** The player's target lies on the lattice when the player does. */
  lemma TargetOnLattice(k: Keys, x: int, y: int)
    requires OnLattice(x, y)
    ensures var t := PlayerTarget(k, x, y); OnLattice(t.0, t.1)
  {
    TargetMovesIffKeyHeld(k, x, y);
  }

  /** The block of `move_or_attack` for member `a`, which now stands at the
      position of `a'` (its target, or where it was after an attack), on a
      floor tile of the lattice: `update_tile` keeps the state consistent and
      only empties slots or fills them with `a`'s id. */
  lemma {:induction false} RebindConsistent(s: State, a: Entity, a': Entity)
    requires Consistent(s) && a in Ents(s)
    requires a' == a.(mapX := a'.mapX, mapY := a'.mapY)
    requires IsFloor(s.grid, TileOf(a')) && OnLattice(a'.mapX, a'.mapY)
    ensures var u := UpdateTile(s.grid, a');
      var r := Put(s.(grid := u.0), u.1);
      && Consistent(r)
      && (forall c :: TileOccupant(r.grid, c) == TileOccupant(s.grid, c) || TileOccupant(r.grid, c).None? ||
                      TileOccupant(r.grid, c) == Some(a.id))
  {
    var u := UpdateTile(s.grid, a');
    var s' := s.(grid := u.0);
    assert Ents(s') == Ents(s);
    LinkedAfterRebind(s.grid, Ents(s), a, a');
    forall x | x in Ents(s') && x.id == u.1.id
      ensures SameRole(x, u.1)
    {
      UniqueMembers(Ents(s), x, a);
    }
    PutRoles(s', u.1);
    PutDeadBound(s', u.1);
  }

  /** Writing back a damaged member `o` keeps the state consistent. */
  lemma {:induction false} DamageConsistent(s: State, o: Entity, o': Entity)
    requires Consistent(s) && o in Ents(s)
    requires o'.id == o.id && o'.kind == o.kind && o'.faction == o.faction && o'.offense == o.offense
    requires o'.mapX == o.mapX && o'.mapY == o.mapY && o'.tile == o.tile
    requires o'.vitals.Some? && o'.vitals.value.hp >= 0 && o.tile.Some?
    ensures Consistent(Put(s, o'))
  {
    LinkedAfterDamage(s.grid, Ents(s), o, o');
    forall x | x in Ents(s) && x.id == o'.id
      ensures SameRole(x, o')
    {
      UniqueMembers(Ents(s), x, o);
    }
    PutRoles(s, o');
    PutDeadBound(s, o');
  }

  /** A blow keeps the target a combatant with the same identity, position
      and binding. */
  lemma DamageKeepsTarget(attacker: Entity, o: Entity, roll: int)
    requires CanDealDamage(attacker) && IsD20(roll) && Sound(o)
    ensures var t := DealDamage(attacker, o, roll).0;
      && t.id == o.id && t.kind == o.kind && t.faction == o.faction && t.offense == o.offense
      && t.mapX == o.mapX && t.mapY == o.mapY && t.tile == o.tile
      && t.vitals.Some? && t.vitals.value.hp >= 0
      && (o.tookDamage ==> t.tookDamage)
  {
    DealDamageFrame(attacker, o, roll);
  }

  /** A member some slot names is bound to that slot's tile. */
  lemma NamedIsBound(s: State, x: Entity, c: Coord)
    requires Consistent(s) && x in Ents(s) && TileOccupant(s.grid, c) == Some(x.id)
    ensures x.tile == Some(c)
  {
  }

  /** A member's position is on a floor tile of the lattice. */
  lemma MemberStands(s: State, x: Entity)
    requires Consistent(s) && x in Ents(s)
    ensures IsFloor(s.grid, TileOf(x)) && OnLattice(x.mapX, x.mapY)
    ensures x.tile.Some? ==> x.tile.value == TileOf(x)
  {
  }

  /** The player's move: the block rebinds the moved player and ticks the
      camera. */
  lemma {:induction false} PlayerMovedCore(s: State, keys: Keys, roll: int)
    requires Core(s) && IsD20(roll)
    requires var p := s.player;
      var t := PlayerTarget(keys, p.mapX, p.mapY);
      MoveOrAttack(s.(tookAction := false), p, t.0, t.1, roll).outcome == Moved
    ensures var r := PlayerTick(s, keys, roll);
      Core(r) && r.player.tookDamage == s.player.tookDamage
  {
    var s0 := s.(tookAction := false);
    var p := s.player;
    var t := PlayerTarget(keys, p.mapX, p.mapY);
    var a := MoveOrAttack(s0, p, t.0, t.1, roll);
    assert Ents(s0) == Ents(s) && Ents(s)[0] == p;
    MemberStands(s, p);
    MoveEntersFreeFloor(s.grid, p, t.0, t.1, OccupantAt(s0, t.0, t.1));
    TargetOnLattice(keys, p.mapX, p.mapY);
    RebindConsistent(s0, p, a.actor);
    var u := UpdateTile(s0.grid, a.actor);
    var m := Put(s0.(grid := u.0), u.1);
    var cam := Cam.Tick(s0.camera, a.actor.mapX, a.actor.mapY);
    var r := m.(camera := cam, tookAction := true);
    assert Ents(r) == Ents(m);
    if t.0 == p.mapX && t.1 == p.mapY {
      assert PlayerTick(s, keys, roll) == s0;
    } else {
      assert PlayerTick(s, keys, roll) == r;
    }
  }

  /** The player's attack: the target (a zombie) takes the blow, then the
      block rebinds the player where it stands and ticks the camera. */
  lemma {:induction false} PlayerAttackedCore(s: State, keys: Keys, roll: int)
    requires Core(s) && IsD20(roll)
    requires var p := s.player;
      var t := PlayerTarget(keys, p.mapX, p.mapY);
      (t.0 != p.mapX || t.1 != p.mapY) &&
      MoveOrAttack(s.(tookAction := false), p, t.0, t.1, roll).outcome == Attacked
    ensures var r := PlayerTick(s, keys, roll);
      Core(r) && r.player.tookDamage == s.player.tookDamage
  {
    var s0 := s.(tookAction := false);
    var p := s.player;
    var t := PlayerTarget(keys, p.mapX, p.mapY);
    var a := MoveOrAttack(s0, p, t.0, t.1, roll);
    assert Ents(s0) == Ents(s) && Ents(s)[0] == p;
    var o := OccupantAt(s0, t.0, t.1).value;
    NamedIsBound(s, o, TargetTile(t.0, t.1));
    var hit := DealDamage(p, o, roll);
    HostileToPlayerIsEnemy(s, o);
    assert o.id != p.id by {
      if o.id == p.id {
        UniqueMembers(Ents(s), o, p);
      }
    }
    DamageKeepsTarget(p, o, roll);
    DamageConsistent(s0, o, hit.0);
    var s1 := a.state;
    assert s1 == Put(s0, hit.0).(log := s1.log);
    assert Ents(s1) == Ents(Put(s0, hit.0));
    assert s1.player == p && Ents(s1)[0] == p;
    MemberStands(s1, p);
    RebindConsistent(s1, p, p);
    var u := UpdateTile(s1.grid, p);
    var m := Put(s1.(grid := u.0), u.1);
    var cam := Cam.Tick(s1.camera, p.mapX, p.mapY);
    var r := m.(camera := cam, tookAction := true);
    assert Ents(r) == Ents(m);
    assert PlayerTick(s, keys, roll) == r;
  }

  /** The player's tick keeps the core and leaves the player's `took_damage`
      flag as it was. */
  lemma {:induction false} PlayerTickCore(s: State, keys: Keys, roll: int)
    requires Core(s) && IsD20(roll)
    ensures var r := PlayerTick(s, keys, roll);
      Core(r) && r.player.tookDamage == s.player.tookDamage
  {
    var p := s.player;
    var t := PlayerTarget(keys, p.mapX, p.mapY);
    var s0 := s.(tookAction := false);
    assert Ents(s0) == Ents(s);
    if t.0 != p.mapX || t.1 != p.mapY {
      var a := MoveOrAttack(s0, p, t.0, t.1, roll);
      if a.outcome == Moved {
        PlayerMovedCore(s, keys, roll);
      } else if a.outcome == Attacked {
        PlayerAttackedCore(s, keys, roll);
      }
    }
  }

  /** Between enemy turns: the core holds, and every dead enemy already
      visited has released its tile. */
  ghost predicate LoopInv(s: State, i: nat) {
    Core(s) && i <= |s.enemies| &&
    forall j :: 0 <= j < i && !IsAlive(s.enemies[j]) ==> Unreferenced(s.grid, s.enemies[j].id)
  }

  /** What a living enemy's `act` may change: the core holds afterwards, no
      other enemy changes, slots are only emptied or filled with the actor's
      id, and the player's `took_damage` flag can only rise. */
  ghost predicate ActFrame(s: State, i: nat, r: State)
    requires i < |s.enemies| && WellFormed(s.grid) && WellFormed(r.grid)
  {
    && Core(r)
    && |r.enemies| == |s.enemies|
    && (forall j :: 0 <= j < |s.enemies| && j != i ==> r.enemies[j] == s.enemies[j])
    && r.enemies[i].vitals == s.enemies[i].vitals
    && (forall c :: TileOccupant(r.grid, c) == TileOccupant(s.grid, c) || TileOccupant(r.grid, c).None? ||
                    TileOccupant(r.grid, c) == Some(s.enemies[i].id))
    && (s.player.tookDamage ==> r.player.tookDamage)
    && r.camera == s.camera && r.tookAction == s.tookAction
  }

  /** The block of an enemy's `move_towards`: rebinding enemy `i`, now at the
      position of `a'`, stays within the frame of an `act`. */
  lemma {:induction false} EnemyRebindFrame(s: State, i: nat, a': Entity)
    requires Core(s) && i < |s.enemies|
    requires a' == s.enemies[i].(mapX := a'.mapX, mapY := a'.mapY)
    requires IsFloor(s.grid, TileOf(a')) && OnLattice(a'.mapX, a'.mapY)
    ensures var u := UpdateTile(s.grid, a');
      ActFrame(s, i, Put(s.(grid := u.0), u.1))
  {
    var e := s.enemies[i];
    assert Ents(s)[i + 1] == e;
    EnemyIsNotPlayer(s, i);
    RebindConsistent(s, e, a');
    var u := UpdateTile(s.grid, a');
    var r := Put(s.(grid := u.0), u.1);
    forall j | 0 <= j < |s.enemies| && j != i
      ensures r.enemies[j] == s.enemies[j]
    {
      EnemiesDistinct(s, j, i);
    }
  }

  /** An enemy that moves: the block rebinds it on its new tile. */
  lemma {:induction false} EnemyMovedStep(s: State, i: nat, draw: EnemyDraw)
    requires Core(s) && i < |s.enemies| && IsD20(draw.roll)
    requires var e := s.enemies[i];
      var t := MoveTowards(e.mapX, e.mapY, EnemyDirection(e, s.player, draw.pick));
      MoveOrAttack(s, e, t.0, t.1, draw.roll).outcome == Moved
    ensures ActFrame(s, i, EnemyAct(s, i, draw))
  {
    var e := s.enemies[i];
    var dir := EnemyDirection(e, s.player, draw.pick);
    var t := MoveTowards(e.mapX, e.mapY, dir);
    var a := MoveOrAttack(s, e, t.0, t.1, draw.roll);
    assert Ents(s)[i + 1] == e;
    MemberStands(s, e);
    StepStaysOnLattice(e.mapX, e.mapY, dir);
    MoveEntersFreeFloor(s.grid, e, t.0, t.1, OccupantAt(s, t.0, t.1));
    EnemyRebindFrame(s, i, a.actor);
  }

  /** A zombie's blow on the player keeps the state consistent, changes no
      enemy and can only raise the player's `took_damage` flag. */
  lemma {:induction false} ZombieHitsPlayer(s: State, e: Entity, roll: int)
    requires Consistent(s) && IsZombie(e) && IsD20(roll) && s.player.tile.Some?
    ensures var s1 := Put(s, DealDamage(e, s.player, roll).0);
      && Consistent(s1) && s1.enemies == s.enemies && s1.grid == s.grid
      && s1.player == DealDamage(e, s.player, roll).0
      && (s.player.tookDamage ==> s1.player.tookDamage)
  {
    var o := s.player;
    var hit := DealDamage(e, o, roll);
    assert Ents(s)[0] == o;
    DamageKeepsTarget(e, o, roll);
    DamageConsistent(s, o, hit.0);
    var s1 := Put(s, hit.0);
    forall j | 0 <= j < |s.enemies|
      ensures s1.enemies[j] == s.enemies[j]
    {
      EnemyIsNotPlayer(s, j);
    }
  }

  /** After a zombie's blow: the state the block starts from. */
  lemma {:induction false} EnemyAttackPrefix(s: State, i: nat, draw: EnemyDraw)
    requires Core(s) && i < |s.enemies| && IsD20(draw.roll)
    requires var e := s.enemies[i];
      var t := MoveTowards(e.mapX, e.mapY, EnemyDirection(e, s.player, draw.pick));
      MoveOrAttack(s, e, t.0, t.1, draw.roll).outcome == Attacked
    ensures var e := s.enemies[i];
      var t := MoveTowards(e.mapX, e.mapY, EnemyDirection(e, s.player, draw.pick));
      var s1 := MoveOrAttack(s, e, t.0, t.1, draw.roll).state;
      && Core(s1) && s1.enemies == s.enemies && s1.grid == s.grid
      && s1.camera == s.camera && s1.tookAction == s.tookAction
      && (s.player.tookDamage ==> s1.player.tookDamage)
  {
    var e := s.enemies[i];
    var t := MoveTowards(e.mapX, e.mapY, EnemyDirection(e, s.player, draw.pick));
    var a := MoveOrAttack(s, e, t.0, t.1, draw.roll);
    assert Ents(s)[i + 1] == e;
    var o := OccupantAt(s, t.0, t.1).value;
    NamedIsBound(s, o, TargetTile(t.0, t.1));
    HostileToEnemyIsPlayer(s, e, o);
    var hit := DealDamage(e, o, draw.roll);
    ZombieHitsPlayer(s, e, draw.roll);
    var s1 := a.state;
    assert s1 == Put(s, hit.0).(log := s1.log);
    assert Ents(s1) == Ents(Put(s, hit.0));
  }

  /** An enemy that attacks: its target is the player, who takes the blow;
      then the block rebinds the enemy where it stands. */
  lemma {:induction false} EnemyAttackedStep(s: State, i: nat, draw: EnemyDraw)
    requires Core(s) && i < |s.enemies| && IsD20(draw.roll)
    requires var e := s.enemies[i];
      var t := MoveTowards(e.mapX, e.mapY, EnemyDirection(e, s.player, draw.pick));
      MoveOrAttack(s, e, t.0, t.1, draw.roll).outcome == Attacked
    ensures ActFrame(s, i, EnemyAct(s, i, draw))
  {
    var e := s.enemies[i];
    var t := MoveTowards(e.mapX, e.mapY, EnemyDirection(e, s.player, draw.pick));
    var a := MoveOrAttack(s, e, t.0, t.1, draw.roll);
    EnemyAttackPrefix(s, i, draw);
    var s1 := a.state;
    assert Ents(s1)[i + 1] == e;
    MemberStands(s1, e);
    EnemyRebindFrame(s1, i, e);
    var u := UpdateTile(s1.grid, e);
    assert EnemyAct(s, i, draw) == Put(s1.(grid := u.0), u.1);
  }

  /** A living enemy's `act` stays within its frame. */
  lemma {:induction false} EnemyActStep(s: State, i: nat, draw: EnemyDraw)
    requires Core(s) && i < |s.enemies| && IsD20(draw.roll)
    ensures ActFrame(s, i, EnemyAct(s, i, draw))
  {
    var e := s.enemies[i];
    var t := MoveTowards(e.mapX, e.mapY, EnemyDirection(e, s.player, draw.pick));
    var a := MoveOrAttack(s, e, t.0, t.1, draw.roll);
    if a.outcome == Moved {
      EnemyMovedStep(s, i, draw);
    } else if a.outcome == Attacked {
      EnemyAttackedStep(s, i, draw);
    }
  }

  /** A dead enemy's `tick` frees its tile; nothing refers to it afterwards. */
  lemma {:induction false} DeadEnemyStep(s: State, i: nat, draw: EnemyDraw)
    requires LoopInv(s, i) && i < |s.enemies| && IsD20(draw.roll) && !IsAlive(s.enemies[i])
    ensures s.enemies[i].tile.Some?
    ensures var r := EnemyTick(s, i, draw);
      && LoopInv(r, i + 1)
      && r.player == s.player && r.camera == s.camera && r.tookAction == s.tookAction
  {
    var e := s.enemies[i];
    assert Ents(s)[i + 1] == e;
    var r := s.(grid := FreeTileOnDeath(s.grid, e));
    assert EnemyTick(s, i, draw) == r;
    FreeKeepsCore(s, i);
    forall j | 0 <= j < i + 1 && !IsAlive(r.enemies[j])
      ensures Unreferenced(r.grid, r.enemies[j].id)
    {
      if j < i {
        UnreferencedWhenEmptied(s.grid, r.grid, s.enemies[j].id);
      }
    }
  }

  /** Freeing the tile of enemy `i` keeps the core, leaves nothing naming it,
      and only empties slots. */
  lemma {:induction false} FreeKeepsCore(s: State, i: nat)
    requires Core(s) && i < |s.enemies|
    ensures var r := s.(grid := FreeTileOnDeath(s.grid, s.enemies[i]));
      && Core(r) && Unreferenced(r.grid, s.enemies[i].id)
      && forall c :: TileOccupant(r.grid, c) == TileOccupant(s.grid, c) || TileOccupant(r.grid, c).None?
  {
    var e := s.enemies[i];
    assert Ents(s)[i + 1] == e;
    var r := s.(grid := FreeTileOnDeath(s.grid, e));
    LinkedAfterFree(s.grid, Ents(s), e);
    assert Ents(r) == Ents(s);
  }

  /** A living enemy's `tick` is its `act`; the dead it has passed stay
      unreferenced because it only writes its own id. */
  lemma {:induction false} LivingEnemyStep(s: State, i: nat, draw: EnemyDraw)
    requires LoopInv(s, i) && i < |s.enemies| && IsD20(draw.roll) && IsAlive(s.enemies[i])
    ensures var r := EnemyTick(s, i, draw);
      && LoopInv(r, i + 1)
      && (s.player.tookDamage ==> r.player.tookDamage)
      && r.camera == s.camera && r.tookAction == s.tookAction
  {
    var r := EnemyAct(s, i, draw);
    assert EnemyTick(s, i, draw) == r;
    EnemyActStep(s, i, draw);
    var me := s.enemies[i].id;
    assert forall c :: TileOccupant(r.grid, c) == TileOccupant(s.grid, c) || TileOccupant(r.grid, c).None? ||
                       TileOccupant(r.grid, c) == Some(me);
    assert IsAlive(r.enemies[i]);
    forall j | 0 <= j < i + 1 && !IsAlive(r.enemies[j])
      ensures Unreferenced(r.grid, r.enemies[j].id)
    {
      var x := s.enemies[j];
      assert r.enemies[j] == x;
      EnemiesDistinct(s, j, i);
      UnreferencedKept(s.grid, r.grid, x.id, me);
    }
  }

  /** A grid change that only empties slots keeps every id unreferenced. */
  lemma UnreferencedWhenEmptied(g: Grid, g2: Grid, id: EntityId)
    requires WellFormed(g) && WellFormed(g2) && Unreferenced(g, id)
    requires forall c :: TileOccupant(g2, c) == TileOccupant(g, c) || TileOccupant(g2, c).None?
    ensures Unreferenced(g2, id)
  {
  }

  /** A grid change that only empties slots or writes `me` keeps every other
      id unreferenced. */
  lemma UnreferencedKept(g: Grid, g2: Grid, id: EntityId, me: EntityId)
    requires WellFormed(g) && WellFormed(g2) && Unreferenced(g, id) && id != me
    requires forall c :: TileOccupant(g2, c) == TileOccupant(g, c) || TileOccupant(g2, c).None? ||
                         TileOccupant(g2, c) == Some(me)
    ensures Unreferenced(g2, id)
  {
  }

  /** One enemy `tick` advances the loop invariant by one position. */
  lemma {:induction false} EnemyTickStep(s: State, i: nat, draw: EnemyDraw)
    requires LoopInv(s, i) && i < |s.enemies| && IsD20(draw.roll)
    ensures var r := EnemyTick(s, i, draw);
      && LoopInv(r, i + 1)
      && (s.player.tookDamage ==> r.player.tookDamage)
      && r.camera == s.camera && r.tookAction == s.tookAction
  {
    if IsAlive(s.enemies[i]) {
      LivingEnemyStep(s, i, draw);
    } else {
      DeadEnemyStep(s, i, draw);
    }
  }

  /** The enemy loop from position `i` on keeps the loop invariant to its end. */
  lemma {:induction false} TickFromKeeps(s: State, i: nat, draws: seq<EnemyDraw>)
    requires LoopInv(s, i) && |draws| == |s.enemies| && DrawsValid(draws)
    ensures var r := TickFrom(s, i, draws);
      && LoopInv(r, |s.enemies|)
      && (s.player.tookDamage ==> r.player.tookDamage)
      && r.camera == s.camera && r.tookAction == s.tookAction
    decreases |s.enemies| - i
  {
    if i < |s.enemies| {
      var next := EnemyTick(s, i, draws[i]);
      EnemyTickStep(s, i, draws[i]);
      TickFromKeeps(next, i + 1, draws);
    }
  }

  /** `EnemyController.tick` turns the core into the full invariant: after the
      enemies have moved, dead ones are gone and nothing refers to them. */
  lemma {:induction false} EnemyControllerValid(s: State, draws: seq<EnemyDraw>)
    requires Core(s) && |draws| == |s.enemies| && DrawsValid(draws)
    requires !s.tookAction ==> forall e :: e in s.enemies ==> IsAlive(e)
    ensures var r := EnemyControllerTick(s, draws);
      Valid(r) && (s.player.tookDamage ==> r.player.tookDamage)
  {
    if s.tookAction {
      var t := TickFrom(s, 0, draws);
      TickFromKeeps(s, 0, draws);
      LinkedAfterFilter(t.grid, t.player, t.enemies);
    }
  }

  /** A whole turn keeps the invariant, and a player once hit stays marked as
      hit: the misspelled reset never clears `took_damage`. */
  lemma {:induction false} GameTickValid(s: State, keys: Keys, roll: int, draws: seq<EnemyDraw>)
    requires Valid(s) && IsD20(roll) && |draws| == |s.enemies| && DrawsValid(draws)
    ensures var r := GameTick(s, keys, roll, draws);
      Valid(r) && (s.player.tookDamage ==> r.player.tookDamage)
  {
    var p := PlayerTick(s, keys, roll);
    PlayerTickCore(s, keys, roll);
    if !p.tookAction {
      PlayerActsIffMovedOrAttacked(s, keys, roll);
      assert p == s.(tookAction := false);
    }
    EnemyControllerValid(p, draws);
  }

  /** A tile position times the tile size lies on the lattice. */
  lemma PlacedOnLattice(tx: int, ty: int)
    ensures OnLattice(tx * TileWidth, ty * TileHeight)
  {
  }

  /** An entity as `spawn` leaves it: alive, unbound, on a floor tile of the
      lattice. */
  ghost predicate Fresh(g: Grid, e: Entity)
    requires WellFormed(g)
  {
    IsAlive(e) && e.tile.None? && IsFloor(g, TileOf(e)) && OnLattice(e.mapX, e.mapY)
  }

  /** Every zombie `spawn_enemies` creates is a fresh zombie, numbered in
      order from `firstId`. */
  lemma {:induction false} SpawnedZombiesFresh(g: Grid, spawns: seq<SpawnDraw>, firstId: EntityId)
    requires WellFormed(g) && SpawnEnemies(g, spawns, firstId).Some?
    ensures var zs := SpawnEnemies(g, spawns, firstId).value;
      forall k :: 0 <= k < |zs| ==> zs[k].id == firstId + k && IsZombie(zs[k]) && Fresh(g, zs[k])
  {
    var zs := SpawnEnemies(g, spawns, firstId).value;
    forall k | 0 <= k < |zs|
      ensures zs[k].id == firstId + k && IsZombie(zs[k]) && Fresh(g, zs[k])
    {
      var z := zs[k];
      PlacedOnLattice(TileOf(z).tx, TileOf(z).ty);
      FreshEntitiesAlive(firstId + k, TileOf(z).tx, TileOf(z).ty);
    }
  }

  /** A state with no filled slot, the camera at the origin, a fresh player
      with id 0 and fresh zombies numbered from 1 is valid. */
  lemma {:induction false} FreshStateValid(s: State)
    requires WellFormed(s.grid) && forall c :: TileOccupant(s.grid, c).None?
    requires s.camera == Cam.Origin
    requires IsPlayer(s.player) && Fresh(s.grid, s.player) && s.player.id == 0
    requires forall k :: 0 <= k < |s.enemies| ==>
      s.enemies[k].id == 1 + k && IsZombie(s.enemies[k]) && Fresh(s.grid, s.enemies[k])
    ensures Valid(s)
  {
    var g := s.grid;
    var es := Ents(s);
    Cam.OriginInRange(PlayAreaWidth, PlayAreaHeight);
    assert UniqueIds(es) by {
      forall j, k | 0 <= j < k < |es|
        ensures es[j].id != es[k].id
      {
        assert es[k] == s.enemies[k - 1];
        if j > 0 {
          assert es[j] == s.enemies[j - 1];
        }
      }
    }
    forall e | e in es
      ensures Fresh(g, e) && (e != s.player ==> e in s.enemies && IsZombie(e))
    {
      var k :| 0 <= k < |es| && es[k] == e;
      if k > 0 {
        assert e == s.enemies[k - 1];
      }
    }
    forall e | e in s.enemies
      ensures IsZombie(e) && IsAlive(e)
    {
      var k :| 0 <= k < |s.enemies| && s.enemies[k] == e;
    }
  }

  /** `reset` establishes the invariant: ids are 0 for the player and 1 to 30
      for the zombies, everyone stands unbound on a floor tile of the lattice,
      no slot is filled and the camera is at the origin. */
  lemma {:induction false} ResetValid(samples: seq<seq<nat>>, playerSearch: seq<(nat, nat)>, spawns: seq<SpawnDraw>)
    requires SamplesShaped(samples) && |spawns| == EnemyCount
    ensures var r := Reset(samples, playerSearch, spawns);
      r.Some? ==> Valid(r.value) && r.value.player.id == 0 && !r.value.player.tookDamage
  {
    var r := Reset(samples, playerSearch, spawns);
    if r.Some? {
      var s := r.value;
      var g := s.grid;
      var found := SpawnNear(g, PlayerSpawnX, PlayerSpawnY, playerSearch);
      assert s.player == NewPlayer(0, found.tx, found.ty);
      PlacedOnLattice(found.tx, found.ty);
      FreshEntitiesAlive(0, found.tx, found.ty);
      assert s.enemies == SpawnEnemies(g, spawns, 1).value;
      SpawnedZombiesFresh(g, spawns, 1);
      FreshStateValid(s);
    }
  }
}
