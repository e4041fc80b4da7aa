/** The `Occupant` behaviour: the two-way link between an entity's `tile` and
    that tile's `occupant` slot. */
module Occupant {
  import opened Common
  import opened Geometry
  import opened Tiles
  import opened Entities

  /** No occupant slot on the grid names `id`. */
  ghost predicate Unreferenced(g: Grid, id: EntityId)
    requires WellFormed(g)
  {
    forall c :: TileOccupant(g, c) != Some(id)
  }

  /** Every slot naming the entity is the tile the entity says it is bound to. */
  ghost predicate LinkedBack(g: Grid, e: Entity)
    requires WellFormed(g)
  {
    forall c :: TileOccupant(g, c) == Some(e.id) ==> e.tile == Some(c)
  }

  /** `update_tile`: clear the slot of the previously bound tile (if any), then
      bind the tile under the entity's position and fill its slot with the
      entity. Binding a tile without a slot (a wall) fails in the source; here
      it leaves the grid alone, and the world invariant rules it out. Returns
      the new grid and the rebound entity. */
  function UpdateTile(g: Grid, e: Entity): (r: (Grid, Entity))
    requires WellFormed(g)
    ensures WellFormed(r.0) && SameTerrain(g, r.0)
    ensures r.1 == e.(tile := Some(TileOf(e)))
    ensures IsFloor(g, TileOf(e)) ==> TileOccupant(r.0, TileOf(e)) == Some(e.id)
    ensures e.tile.Some? && e.tile.value != TileOf(e) ==> TileOccupant(r.0, e.tile.value).None?
    ensures forall c :: c != TileOf(e) && e.tile != Some(c) ==> TileOccupant(r.0, c) == TileOccupant(g, c)
  {
    var cleared := if e.tile.Some? then SetOccupant(g, e.tile.value, None) else g;
    var here := TileOf(e);
    SameTerrainFloor(g, cleared, here);
    var bound := SetOccupant(cleared, here, Some(e.id));
    SameTerrainTransitive(g, cleared, bound);
    (bound, e.(tile := Some(here)))
  }

  /** After rebinding, the entity's own slot is the only one naming it, provided
      that before the call every slot naming it was its old tile. */
  lemma {:induction false} UpdateTileKeepsSingleLink(g: Grid, e: Entity)
    requires WellFormed(g) && LinkedBack(g, e)
    ensures var r := UpdateTile(g, e);
      LinkedBack(r.0, r.1) && (forall c :: TileOccupant(r.0, c) == Some(e.id) ==> c == TileOf(e))
  {
    var r := UpdateTile(g, e);
    forall c | c != TileOf(e)
      ensures TileOccupant(r.0, c) != Some(e.id)
    {
      if e.tile != Some(c) {
        assert TileOccupant(r.0, c) == TileOccupant(g, c);
      }
    }
  }

  /** Rebinding an entity that is already bound to the tile under it changes
      nothing but that tile's slot, which names the entity afterwards. */
  lemma RebindInPlace(g: Grid, e: Entity)
    requires WellFormed(g) && e.tile == Some(TileOf(e)) && IsFloor(g, TileOf(e))
    ensures var r := UpdateTile(g, e);
      r.1 == e && TileOccupant(r.0, TileOf(e)) == Some(e.id) &&
      forall c :: c != TileOf(e) ==> TileOccupant(r.0, c) == TileOccupant(g, c)
  {
  }

  /** `free_tile_on_death`: the slot of the bound tile is emptied; the entity's
      own `tile` is left as it was. The source fails on an entity that never
      bound a tile; here that case leaves the grid alone. */
  function FreeTileOnDeath(g: Grid, e: Entity): (r: Grid)
    requires WellFormed(g)
    ensures WellFormed(r) && SameTerrain(g, r)
    ensures e.tile.Some? && IsFloor(g, e.tile.value) ==> TileOccupant(r, e.tile.value).None?
    ensures forall c :: e.tile != Some(c) ==> TileOccupant(r, c) == TileOccupant(g, c)
  {
    if e.tile.Some? then SetOccupant(g, e.tile.value, None) else g
  }

  /** Freeing the tile of an entity whose slots all point back at its bound
      tile leaves no slot naming it. */
  lemma {:induction false} FreeTileReleasesEntity(g: Grid, e: Entity)
    requires WellFormed(g) && LinkedBack(g, e)
    ensures Unreferenced(FreeTileOnDeath(g, e), e.id)
  {
    var r := FreeTileOnDeath(g, e);
    forall c
      ensures TileOccupant(r, c) != Some(e.id)
    {
      if e.tile != Some(c) {
        assert TileOccupant(r, c) == TileOccupant(g, c);
      }
    }
  }
}
