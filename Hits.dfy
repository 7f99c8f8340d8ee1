/**
 * Hit resolution shared by both abilities: the collider a damage entity
 * reports, and the two hit handlers (FireballAbility.OnFireballHit and
 * IceSpikesAbility.HandleSpikeHit). Each looks for an EnemyHealth on the
 * collider's object and, when there is one, applies the ability's base damage
 * exactly once; otherwise the hit has no effect.
 */
module Hits {
  import opened Scene
  import opened DamageNumbers
  import opened Enemies

  /** A collider: an identity for collision filtering and the EnemyHealth on its object, if any. */
  datatype Collider = Collider(id: nat, enemy: EnemyHealth?)

  /** The handler an ability subscribes to an entity's hit event. */
  datatype HitHandler = OnFireballHit(fireballDamage: real) | HandleSpikeHit(spikeDamage: real)

  /** Everything a hit on `c` may change. */
  function Targets(c: Collider): set<object>
  {
    if c.enemy == null then {} else c.enemy.Footprint()
  }

  ghost predicate TargetValid(c: Collider)
    reads if c.enemy == null then {} else {c.enemy, c.enemy.damageNumbersManager}
  {
    c.enemy != null ==> c.enemy.Valid()
  }

  /** The damage a handler applies: the base damage of the ability that subscribed it. */
  function Damage(h: HitHandler): real
  {
    match h
    case OnFireballHit(d) => d
    case HandleSpikeHit(d) => d
  }

  /** Applies `damage` to the enemy behind `c`, or does nothing when there is none. */
  method DamageTarget(damage: real, c: Collider)
    requires TargetValid(c)
    modifies Targets(c)
    ensures TargetValid(c)
    ensures c.enemy != null ==> c.enemy.DamageApplied(damage)
  {
    if c.enemy != null {
      c.enemy.ApplyDamage(damage);
    }
  }

  /** Invokes the subscribed handler with the collider an entity reports. */
  method Invoke(h: HitHandler, c: Collider)
    requires TargetValid(c)
    modifies Targets(c)
    ensures TargetValid(c)
    ensures c.enemy != null ==> c.enemy.DamageApplied(Damage(h))
  {
    match h
    case OnFireballHit(d) => DamageTarget(d, c);
    case HandleSpikeHit(d) => DamageTarget(d, c);
  }
}
