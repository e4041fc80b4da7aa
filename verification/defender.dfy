/** The `Defender` behaviour: hit points that absorb damage. */
module Defender {
  import opened Common

  /** `hp`, `max_hp` (absent on entities that never set it) and `defense`. */
  datatype Vitals = Vitals(hp: int, maxHp: Option<int>, defense: int)

  /** `alive?` */
  predicate Alive(v: Vitals) {
    v.hp > 0
  }

  /** `take_damage`: hit points drop by the damage and saturate at zero. */
  function TakeDamage(v: Vitals, damage: int): (r: Vitals)
    ensures r.hp >= 0
    ensures r.maxHp == v.maxHp && r.defense == v.defense
    ensures damage >= v.hp ==> r.hp == 0
    ensures damage < v.hp ==> r.hp == v.hp - damage
  {
    v.(hp := if 0 < v.hp - damage then v.hp - damage else 0)
  }

  /** A blow kills exactly when it is at least the remaining hit points. */
  lemma LethalIffDamageCoversHp(v: Vitals, damage: int)
    ensures !Alive(TakeDamage(v, damage)) <==> damage >= v.hp
  {
  }

  /** Non-negative damage never raises hit points, and zero damage changes
      nothing on a living (or just-dead) defender. */
  lemma DamageNeverHeals(v: Vitals, damage: int)
    requires damage >= 0 && v.hp >= 0
    ensures TakeDamage(v, damage).hp <= v.hp
    ensures damage == 0 ==> TakeDamage(v, damage) == v
  {
  }

  /** Two blows in a row do what one blow of their sum does: saturation at
      zero does not lose or invent damage. */
  lemma DamageAccumulates(v: Vitals, a: int, b: int)
    requires v.hp >= 0 && a >= 0 && b >= 0
    ensures TakeDamage(TakeDamage(v, a), b) == TakeDamage(v, a + b)
  {
  }

  /** Once dead, a defender stays dead under any further non-negative damage. */
  lemma DeathIsFinal(v: Vitals, damage: int)
    requires v.hp >= 0 && !Alive(v) && damage >= 0
    ensures TakeDamage(v, damage) == v
  {
  }
}
