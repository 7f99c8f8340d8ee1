/**
 * The authored ability records (Ability and its two variants). They are
 * plain data, shared by reference and never changed at run time; what
 * TriggerAbility does for each variant is modelled in FireballAbility and
 * IceSpikesAbility.
 */
module AbilityData {
  import opened Scene
  import opened Projectiles

  datatype Ability =
    | Fireball(
        abilityName: string,
        baseCooldown: real,
        projectilePrefab: ProjectilePrefab,
        fireballDamage: real,
        projectileSpeed: real,
        projectileLifetime: Lifetime)
    | IceSpikes(
        abilityName: string,
        baseCooldown: real,
        spikeCount: int,
        maxDistance: real,
        spawnDelay: real,
        coneAngle: real,
        spikeSize: real,
        spikeDamage: real,
        spikeSides: int)

  /** A fireball with the field defaults of FireballAbility. */
  function DefaultFireball(name: string, baseCooldown: real, prefab: ProjectilePrefab): Ability
  {
    Fireball(name, baseCooldown, prefab, 10.0, 15.0, Finite(2.0))
  }

  /** Ice spikes with the field defaults of IceSpikesAbility. */
  function DefaultIceSpikes(name: string, baseCooldown: real): Ability
  {
    IceSpikes(name, baseCooldown, 10, 9.0, 0.05, 30.0, 1.0, 15.0, 3)
  }
}
