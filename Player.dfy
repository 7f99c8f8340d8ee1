/**
 * Player health bookkeeping (PlayerHealth): damage is subtracted with no
 * clamp, and Die is called whenever the health is at or below 0 after a hit.
 * Presentation side effects are recorded in an event log.
 */
module Player {

  datatype PlayerEvent =
    | HealthBarShown(current: int, max: int)     // owner's HUD bar filled instantly
    | HitAnimation                               // the "hit" trigger on the child animator
    | HealthBarUpdated(current: int, max: int)
    | BloodDecalSpawned
    | BloodDecalMissing                          // warning: no decal prefab
    | Died

  /** The events one completed TakeDamage adds, given the health it leaves. */
  function HitEvents(health: int, maxHealth: int, barBound: bool, bloodDecal: bool): seq<PlayerEvent>
  {
    [HitAnimation]
    + (if barBound then [HealthBarUpdated(health, maxHealth)] else [])
    + [if bloodDecal then BloodDecalSpawned else BloodDecalMissing]
    + (if health <= 0 then [Died] else [])
  }

  class PlayerHealth {
    const maxHealth: int
    var currentHealth: int
    const hasBloodDecalPrefab: bool
    const hasAnimatorInChildren: bool
    var animator: bool
    var healthBarBound: bool
    var events: seq<PlayerEvent>

    constructor (maxHealth: int, hasBloodDecalPrefab: bool, hasAnimatorInChildren: bool)
      ensures this.maxHealth == maxHealth && this.hasBloodDecalPrefab == hasBloodDecalPrefab
      ensures this.hasAnimatorInChildren == hasAnimatorInChildren
      ensures currentHealth == 0 && !animator && !healthBarBound && events == []
    {
      this.maxHealth := maxHealth;
      this.hasBloodDecalPrefab := hasBloodDecalPrefab;
      this.hasAnimatorInChildren := hasAnimatorInChildren;
      currentHealth := 0;
      animator, healthBarBound := false, false;
      events := [];
    }

    /** OnStartClient: only the owning client binds the HUD health bar. */
    method OnStartClient(isOwner: bool)
      modifies this`healthBarBound, this`events
      ensures healthBarBound == (old(healthBarBound) || isOwner)
      ensures events == old(events) + (if isOwner then [HealthBarShown(currentHealth, maxHealth)] else [])
    {
      if isOwner {
        healthBarBound := true;
        events := events + [HealthBarShown(currentHealth, maxHealth)];
      }
    }

    /** Start: look up the child animator and set the health to its maximum. */
    method Start()
      modifies this`animator, this`currentHealth
      ensures animator == hasAnimatorInChildren && currentHealth == maxHealth
    {
      animator := hasAnimatorInChildren;
      currentHealth := maxHealth;
    }

    /**
     * TakeDamage: subtract without clamping, then play the hit animation. With
     * no animator the call fails there with a null reference (`completed` is
     * false) after the health has already dropped; otherwise the bar, the
     * decal and, at or below 0, Die follow.
     */
    method TakeDamage(damage: int) returns (completed: bool)
      modifies this`currentHealth, this`events
      ensures currentHealth == old(currentHealth) - damage
      ensures completed == animator
      ensures events == old(events)
        + (if completed then HitEvents(currentHealth, maxHealth, healthBarBound, hasBloodDecalPrefab) else [])
    {
      currentHealth := currentHealth - damage;
      if !animator {
        return false;
      }
      events := events + [HitAnimation];
      if healthBarBound {
        events := events + [HealthBarUpdated(currentHealth, maxHealth)];
      }
      SpawnBloodDecal();
      if currentHealth <= 0 {
        Die();
      }
      completed := true;
    }

    method SpawnBloodDecal()
      modifies this`events
      ensures events == old(events) + [if hasBloodDecalPrefab then BloodDecalSpawned else BloodDecalMissing]
    {
      if hasBloodDecalPrefab {
        events := events + [BloodDecalSpawned];
      } else {
        events := events + [BloodDecalMissing];
      }
    }

    method Die()
      modifies this`events
      ensures events == old(events) + [Died]
    {
      events := events + [Died];
    }

    /** Update: the debug key T deals 10 damage. */
    method Update(keyTPressed: bool) returns (completed: bool)
      modifies this`currentHealth, this`events
      ensures currentHealth == old(currentHealth) - (if keyTPressed then 10 else 0)
      ensures completed == (!keyTPressed || animator)
      ensures events == old(events)
        + (if keyTPressed && animator then HitEvents(currentHealth, maxHealth, healthBarBound, hasBloodDecalPrefab)
           else [])
    {
      completed := true;
      if keyTPressed {
        completed := TakeDamage(10);
      }
    }
  }

  /**
   * Nothing clamps the player's health: a hit larger than the remaining health
   * leaves it negative, and every later hit calls Die again.
   */
  lemma {:induction false} HealthGoesNegativeAndDieRepeats(health: int, d1: nat, d2: nat, maxHealth: int,
                                                           bar: bool, blood: bool)
    requires d1 > health
    ensures health - d1 < 0
    ensures Died in HitEvents(health - d1, maxHealth, bar, blood)
    ensures Died in HitEvents(health - d1 - d2, maxHealth, bar, blood)
  {
    var e1 := HitEvents(health - d1, maxHealth, bar, blood);
    var e2 := HitEvents(health - d1 - d2, maxHealth, bar, blood);
    assert e1[|e1| - 1] == Died;
    assert e2[|e2| - 1] == Died;
  }

  /** Die is in the events of a completed hit exactly when the health it leaves is at or below 0. */
  lemma {:induction false} DiesIffAtOrBelowZero(health: int, maxHealth: int, bar: bool, blood: bool)
    ensures Died in HitEvents(health, maxHealth, bar, blood) <==> health <= 0
  {
    var e := HitEvents(health, maxHealth, bar, blood);
    if health <= 0 {
      assert e[|e| - 1] == Died;
    }
  }
}
