/**
 * The fireball ability (FireballAbility.TriggerAbility): launch one
 * projectile from the holder's spawn point that ignores the holder's own
 * collider and damages the enemy it hits by the ability's damage.
 */
module FireballAbility {
  import opened Scene
  import opened Hits
  import opened Projectiles
  import opened AbilityData
  import opened AbilitySlots

  /**
   * TriggerAbility: instantiate the prefab at the spawn point, subscribe
   * OnFireballHit, and fire it with the holder as caster. The holder is only
   * read. The new fireball cannot hit its caster: the caster's collider is
   * among its ignored colliders, and OnCollisionEnter does nothing for those.
   */
  method TriggerAbility(ability: Ability, holder: AbilityHolder) returns (fireball: Projectile)
    requires ability.Fireball?
    ensures fresh(fireball) && fireball.Valid()
    ensures var at := holder.SpawnPoint();
      fireball.position == at.position && fireball.rotation == at.rotation && fireball.forward == at.forward
    ensures fireball.state == Flying && fireball.velocity == Zero && fireball.reported == []
    ensures fireball.onHit == Some(OnFireballHit(ability.fireballDamage))
    ensures fireball.ignoredColliders == (if holder.casterCollider.Some? then {holder.casterCollider.value} else {})
    ensures fireball.speed == (if ability.projectileSpeed > 0.0 then ability.projectileSpeed
                               else ability.projectilePrefab.speed)
    ensures fireball.lifeTime == ability.projectileLifetime
    ensures fireball.destroyAfter == (if ability.projectileLifetime.Finite? then Some(ability.projectileLifetime.seconds)
                                      else None)
    ensures fireball.effects == (if ability.projectilePrefab.hasFlash
                                 then [Flash(holder.SpawnPoint().position, holder.SpawnPoint().forward)] else [])
  {
    var at := holder.SpawnPoint();
    fireball := Instantiate(ability.projectilePrefab, at);
    fireball.Subscribe(OnFireballHit(ability.fireballDamage));
    fireball.Fire(Some(Caster(holder.casterCollider)), ability.projectileSpeed, ability.projectileLifetime);
  }
}
