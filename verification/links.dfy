/** The occupancy invariant over a grid and a list of entities, and the four
    ways the game changes them: damaging an entity in place, rebinding a
    moved entity, freeing a dead entity's tile, and dropping the dead. */
module Links {
  import opened Common
  import opened Geometry
  import opened Tiles
  import opened Entities
  import opened Occupant
  import opened Policy
  import opened World

  /** The ids of a list of entities, position by position. */
  function Ids(es: seq<Entity>): (r: seq<EntityId>)
    ensures |r| == |es| && forall i :: 0 <= i < |es| ==> r[i] == es[i].id
  {
    seq(|es|, i requires 0 <= i < |es| => es[i].id)
  }

  /** No two entities share an id. */
  predicate UniqueIds(es: seq<Entity>) {
    forall j, k :: 0 <= j < k < |es| ==> es[j].id != es[k].id
  }

  /** A slot naming an entity is the tile that entity is bound to. */
  ghost predicate LinksForward(g: Grid, es: seq<Entity>)
    requires WellFormed(g)
  {
    forall c, e :: e in es && TileOccupant(g, c) == Some(e.id) ==> e.tile == Some(c)
  }

  /** Every filled slot names an entity of the list. */
  ghost predicate OccupantsKnown(g: Grid, es: seq<Entity>)
    requires WellFormed(g)
  {
    forall c :: TileOccupant(g, c).Some? ==> TileOccupant(g, c).value in Ids(es)
  }

  /** Every entity stands on a floor tile of the lattice, and a bound entity
      is bound to the tile it stands on. */
  ghost predicate Standing(g: Grid, es: seq<Entity>)
    requires WellFormed(g)
  {
    forall e :: e in es ==>
      IsFloor(g, TileOf(e)) && OnLattice(e.mapX, e.mapY) && (e.tile.Some? ==> e.tile.value == TileOf(e))
  }

  ghost predicate Linked(g: Grid, es: seq<Entity>) {
    WellFormed(g) && UniqueIds(es) && LinksForward(g, es) && OccupantsKnown(g, es) && Standing(g, es)
  }

  /** Replacing keeps every position's id. */
  lemma ReplaceIds(es: seq<Entity>, x: Entity)
    ensures Ids(Replace(es, x)) == Ids(es)
  {
  }

  /** A member of a replaced list is the new entity or an untouched old one. */
  lemma ReplaceMembers(es: seq<Entity>, x: Entity)
    ensures forall y :: y in Replace(es, x) ==> y == x || (y in es && y.id != x.id)
    ensures forall y :: y in es && y.id != x.id ==> y in Replace(es, x)
  {
    var r := Replace(es, x);
    forall y | y in es && y.id != x.id
      ensures y in r
    {
      var i :| 0 <= i < |es| && es[i] == y;
      assert r[i] == y;
    }
  }

  /** With unique ids, an id names at most one member. */
  lemma UniqueMembers(es: seq<Entity>, x: Entity, y: Entity)
    requires UniqueIds(es) && x in es && y in es && x.id == y.id
    ensures x == y
  {
    var i :| 0 <= i < |es| && es[i] == x;
    var j :| 0 <= j < |es| && es[j] == y;
    assert i == j;
  }

  /** An entity is in the list iff its id is, given it is the member for that id. */
  lemma MemberId(es: seq<Entity>, x: Entity)
    requires x in es
    ensures x.id in Ids(es)
  {
    var i :| 0 <= i < |es| && es[i] == x;
    assert Ids(es)[i] == x.id;
  }

  /** Damage: the target is replaced by a version with the same id, position
      and binding; the grid is untouched. */
  lemma {:induction false} LinkedAfterDamage(g: Grid, es: seq<Entity>, t: Entity, t': Entity)
    requires Linked(g, es) && t in es
    requires t'.id == t.id && t'.mapX == t.mapX && t'.mapY == t.mapY && t'.tile == t.tile
    ensures Linked(g, Replace(es, t'))
  {
    var r := Replace(es, t');
    ReplaceIds(es, t');
    ReplaceMembers(es, t');
    assert UniqueIds(r) by {
      forall j, k | 0 <= j < k < |r|
        ensures r[j].id != r[k].id
      {
        assert Ids(r)[j] == Ids(es)[j] && Ids(r)[k] == Ids(es)[k];
      }
    }
    assert LinksForward(g, r) by {
      forall c, e | e in r && TileOccupant(g, c) == Some(e.id)
        ensures e.tile == Some(c)
      {
        if e == t' {
          assert TileOccupant(g, c) == Some(t.id);
        }
      }
    }
    assert Standing(g, r) by {
      forall e | e in r
        ensures IsFloor(g, TileOf(e)) && OnLattice(e.mapX, e.mapY) && (e.tile.Some? ==> e.tile.value == TileOf(e))
      {
        if e == t' {
          assert TileOf(e) == TileOf(t);
        }
      }
    }
  }

  /** Rebinding: `a` (a member) has moved to `a'` (same id and old binding)
      onto a floor tile of the lattice, and `update_tile` rebinds it. The
      slots that change are emptied or name `a`. */
  lemma {:induction false} LinkedAfterRebind(g: Grid, es: seq<Entity>, a: Entity, a': Entity)
    requires Linked(g, es) && a in es
    requires a'.id == a.id && a'.tile == a.tile
    requires IsFloor(g, TileOf(a')) && OnLattice(a'.mapX, a'.mapY)
    ensures var u := UpdateTile(g, a');
      && Linked(u.0, Replace(es, u.1))
      && forall c :: TileOccupant(u.0, c) == TileOccupant(g, c) || TileOccupant(u.0, c).None? ||
                     TileOccupant(u.0, c) == Some(a.id)
  {
    var u := UpdateTile(g, a');
    var g2 := u.0;
    var a2 := u.1;
    var r := Replace(es, a2);
    ReplaceIds(es, a2);
    ReplaceMembers(es, a2);
    assert LinkedBack(g, a') by {
      forall c | TileOccupant(g, c) == Some(a'.id)
        ensures a'.tile == Some(c)
      {
        assert TileOccupant(g, c) == Some(a.id);
      }
    }
    UpdateTileKeepsSingleLink(g, a');
    assert UniqueIds(r) by {
      forall j, k | 0 <= j < k < |r|
        ensures r[j].id != r[k].id
      {
        assert Ids(r)[j] == Ids(es)[j] && Ids(r)[k] == Ids(es)[k];
      }
    }
    assert LinksForward(g2, r) by {
      forall c, e | e in r && TileOccupant(g2, c) == Some(e.id)
        ensures e.tile == Some(c)
      {
        if e.id != a.id {
          assert c != TileOf(a');
          assert TileOccupant(g2, c) == TileOccupant(g, c);
        }
      }
    }
    assert OccupantsKnown(g2, r) by {
      MemberId(es, a);
      forall c | TileOccupant(g2, c).Some?
        ensures TileOccupant(g2, c).value in Ids(r)
      {
        if c != TileOf(a') && a'.tile != Some(c) {
          assert TileOccupant(g2, c) == TileOccupant(g, c);
        }
      }
    }
    assert Standing(g2, r) by {
      forall e | e in r
        ensures IsFloor(g2, TileOf(e)) && OnLattice(e.mapX, e.mapY) && (e.tile.Some? ==> e.tile.value == TileOf(e))
      {
        SameTerrainFloor(g, g2, TileOf(e));
      }
    }
  }

  /** Freeing a member's tile keeps the invariant, only empties slots, and
      leaves no slot naming the member. */
  lemma {:induction false} LinkedAfterFree(g: Grid, es: seq<Entity>, e: Entity)
    requires Linked(g, es) && e in es
    ensures var g2 := FreeTileOnDeath(g, e);
      && Linked(g2, es) && Unreferenced(g2, e.id)
      && forall c :: TileOccupant(g2, c) == TileOccupant(g, c) || TileOccupant(g2, c).None?
  {
    var g2 := FreeTileOnDeath(g, e);
    assert LinkedBack(g, e);
    FreeTileReleasesEntity(g, e);
    assert forall c :: TileOccupant(g2, c) == TileOccupant(g, c) || TileOccupant(g2, c).None? by {
      forall c
        ensures TileOccupant(g2, c) == TileOccupant(g, c) || TileOccupant(g2, c).None?
      {
        if e.tile == Some(c) {
          assert IsFloor(g, c);
        }
      }
    }
    assert Standing(g2, es) by {
      forall x | x in es
        ensures IsFloor(g2, TileOf(x))
      {
        SameTerrainFloor(g, g2, TileOf(x));
      }
    }
  }

  /** Filtering keeps ids unique. */
  lemma {:induction false} FilterAliveUnique(es: seq<Entity>)
    requires UniqueIds(es)
    ensures UniqueIds(FilterAlive(es))
    decreases |es|
  {
    if |es| > 0 {
      var rest := FilterAlive(es[1..]);
      assert UniqueIds(es[1..]) by {
        forall j, k | 0 <= j < k < |es[1..]|
          ensures es[1..][j].id != es[1..][k].id
        {
          assert es[1..][j] == es[j + 1] && es[1..][k] == es[k + 1];
        }
      }
      FilterAliveUnique(es[1..]);
      if IsAlive(es[0]) {
        var r := [es[0]] + rest;
        forall k | 0 < k < |r|
          ensures r[0].id != r[k].id
        {
          assert r[k] in rest;
          var m :| 0 <= m < |es[1..]| && es[1..][m] == r[k];
          assert es[m + 1] == r[k];
        }
      }
    }
  }

  /** Dropping the dead after every dead entity has released its tile keeps
      the invariant for the player and the survivors. */
  lemma {:induction false} LinkedAfterFilter(g: Grid, p: Entity, es: seq<Entity>)
    requires Linked(g, [p] + es)
    requires forall j :: 0 <= j < |es| && !IsAlive(es[j]) ==> Unreferenced(g, es[j].id)
    ensures Linked(g, [p] + FilterAlive(es))
  {
    var all := [p] + es;
    var f := FilterAlive(es);
    var r := [p] + f;
    assert forall e :: e in r ==> e in all;
    assert UniqueIds(es) by {
      forall j, k | 0 <= j < k < |es|
        ensures es[j].id != es[k].id
      {
        assert all[j + 1] == es[j] && all[k + 1] == es[k];
      }
    }
    FilterAliveUnique(es);
    assert UniqueIds(r) by {
      forall j, k | 0 <= j < k < |r|
        ensures r[j].id != r[k].id
      {
        assert r[k] == f[k - 1];
        assert f[k - 1] in f;
        if j == 0 {
          assert r[k] in es;
          var m :| 0 <= m < |es| && es[m] == r[k];
          assert all[m + 1] == r[k];
          assert all[0] == p && all[0].id != all[m + 1].id;
        } else {
          assert r[j] == f[j - 1];
          assert f[j - 1].id != f[k - 1].id;
        }
      }
    }
    assert OccupantsKnown(g, r) by {
      forall c | TileOccupant(g, c).Some?
        ensures TileOccupant(g, c).value in Ids(r)
      {
        var id := TileOccupant(g, c).value;
        var m :| 0 <= m < |all| && Ids(all)[m] == id;
        if m == 0 {
          assert Ids(r)[0] == id;
        } else {
          var x := es[m - 1];
          assert all[m] == x;
          assert IsAlive(x);
          assert x in r;
          MemberId(r, x);
        }
      }
    }
  }
}
