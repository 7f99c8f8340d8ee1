/**
 * Enemy health bookkeeping (EnemyHealth): damage is rounded, subtracted and
 * clamped to [0, maxHealth]; the enemy dies whenever its health is 0 after a
 * hit. Presentation side effects (health bar, hit animation, blood decal,
 * death animation) are recorded in an event log; damage numbers go to the
 * damage-number pool, whose state is modelled.
 */
module Enemies {
  import opened Scene
  import opened DamageNumbers

  datatype EnemyEvent =
    | HealthBarShown(current: int, max: int)      // the bar is created and filled instantly
    | HealthBarMissing                            // warning: no health-bar prefab
    | HealthBarUpdated(current: int, max: int)
    | HitReaction                                 // agent stopped, "hit" trigger, re-enable timer started
    | AnimatorOrAgentMissing                      // warning instead of the hit reaction
    | BloodDecalSpawned
    | BloodDecalMissing                           // warning: no decal prefab
    | DeathAnimation
    | HealthBarDestroyed
    | DestroyScheduled(delay: real)

  /** The health after a hit: clamp(health - RoundToInt(damage), 0, maxHealth). */
  function DamagedHealth(current: int, maxHealth: int, damage: real): (r: int)
    ensures 0 <= maxHealth ==> 0 <= r <= maxHealth
    ensures 0 <= current - RoundToInt(damage) <= maxHealth ==> r == current - RoundToInt(damage)
    // a hit larger than the health leaves exactly 0; a heal past the maximum leaves exactly maxHealth
    ensures 0 <= maxHealth && current - RoundToInt(damage) < 0 ==> r == 0
    ensures 0 <= maxHealth < current - RoundToInt(damage) ==> r == maxHealth
    // negative damage heals, but never above maxHealth
    ensures 0 <= current <= maxHealth && damage <= 0.0 ==> current <= r <= maxHealth
    // positive damage never heals
    ensures 0 <= current <= maxHealth && damage >= 0.0 ==> r <= current
  {
    ClampInt(current - RoundToInt(damage), 0, maxHealth)
  }

  /** The events Die adds: the death animation, the bar's removal, the delayed destruction. */
  function DeathEvents(animator: bool, barAlive: bool): seq<EnemyEvent>
  {
    (if animator then [DeathAnimation] else [])
    + (if barAlive then [HealthBarDestroyed] else [])
    + [DestroyScheduled(2.0)]
  }

  /** The events one ApplyDamage adds, given the health it leaves. */
  function HitEvents(health: int, maxHealth: int, barAlive: bool, animator: bool, agent: bool,
                     bloodDecal: bool): seq<EnemyEvent>
  {
    (if barAlive then [HealthBarUpdated(health, maxHealth)] else [])
    + ReactionEvents(health, barAlive, animator, agent, bloodDecal)
  }

  /** The events after the health-bar refresh: hit reaction or warning, blood decal, and Die at 0. */
  function ReactionEvents(health: int, barAlive: bool, animator: bool, agent: bool, bloodDecal: bool)
    : seq<EnemyEvent>
  {
    [if animator && agent then HitReaction else AnimatorOrAgentMissing]
    + [if bloodDecal then BloodDecalSpawned else BloodDecalMissing]
    + (if health <= 0 then DeathEvents(animator, barAlive) else [])
  }

  class EnemyHealth {
    const maxHealth: int
    var currentHealth: int
    const hasHealthBarPrefab: bool
    const hasBloodDecalPrefab: bool
    const damageNumbersManager: DMGNumbersManager?
    // components on the enemy's game object, looked up in Start
    const hasAnimatorComponent: bool
    const hasAgentComponent: bool
    var animator: bool
    var agent: bool
    var position: Vec3
    var healthBarAlive: bool
    var agentStopped: bool
    var events: seq<EnemyEvent>

    /** Everything a hit may change: the enemy and the damage-number pool it reports to. */
    function Footprint(): set<object>
    {
      {this} + (if damageNumbersManager == null then {} else {damageNumbersManager})
    }

    ghost predicate Valid()
      reads this, damageNumbersManager
    {
      damageNumbersManager != null ==> damageNumbersManager.Valid()
    }

    constructor (maxHealth: int, hasHealthBarPrefab: bool, hasBloodDecalPrefab: bool,
                 damageNumbersManager: DMGNumbersManager?, hasAnimator: bool, hasAgent: bool,
                 position: Vec3)
      ensures this.maxHealth == maxHealth && this.damageNumbersManager == damageNumbersManager
      ensures this.hasHealthBarPrefab == hasHealthBarPrefab && this.hasBloodDecalPrefab == hasBloodDecalPrefab
      ensures hasAnimatorComponent == hasAnimator && hasAgentComponent == hasAgent
      ensures this.position == position
      ensures currentHealth == 0 && !animator && !agent && !healthBarAlive && !agentStopped && events == []
    {
      this.maxHealth := maxHealth;
      this.hasHealthBarPrefab := hasHealthBarPrefab;
      this.hasBloodDecalPrefab := hasBloodDecalPrefab;
      this.damageNumbersManager := damageNumbersManager;
      hasAnimatorComponent, hasAgentComponent := hasAnimator, hasAgent;
      this.position := position;
      currentHealth := 0;
      animator, agent, healthBarAlive, agentStopped := false, false, false, false;
      events := [];
    }

    /** Start: full health, components looked up, health bar created when a prefab is set. */
    method Start()
      modifies this
      ensures currentHealth == maxHealth
      ensures animator == hasAnimatorComponent && agent == hasAgentComponent
      ensures healthBarAlive == (old(healthBarAlive) || hasHealthBarPrefab)
      ensures events == old(events) + [if hasHealthBarPrefab then HealthBarShown(maxHealth, maxHealth) else HealthBarMissing]
      ensures position == old(position) && agentStopped == old(agentStopped)
    {
      currentHealth := maxHealth;
      animator, agent := hasAnimatorComponent, hasAgentComponent;
      if hasHealthBarPrefab {
        healthBarAlive := true;
        events := events + [HealthBarShown(currentHealth, maxHealth)];
      } else {
        events := events + [HealthBarMissing];
      }
    }

    /** What one ApplyDamage(damage) does to the enemy and to the damage-number pool. */
    twostate predicate DamageApplied(damage: real)
      reads this, damageNumbersManager
    {
      && currentHealth == DamagedHealth(old(currentHealth), maxHealth, damage)
      && events == old(events) + HitEvents(currentHealth, maxHealth, old(healthBarAlive), animator, agent,
                                           hasBloodDecalPrefab)
      && healthBarAlive == (old(healthBarAlive) && currentHealth > 0)
      && agentStopped == (old(agentStopped) || (animator && agent))
      && animator == old(animator) && agent == old(agent) && position == old(position)
      && (damageNumbersManager != null && old(damageNumbersManager.Valid()) ==>
            damageNumbersManager.Valid() &&
            damageNumbersManager.State() == Spawn(old(damageNumbersManager.State()), old(position).Plus(Up), damage).0)
    }

    method ApplyDamage(damage: real)
      requires Valid()
      modifies Footprint()
      ensures Valid()
      ensures DamageApplied(damage)
    {
      currentHealth := currentHealth - RoundToInt(damage);
      currentHealth := ClampInt(currentHealth, 0, maxHealth);
      ghost var e0, bar := events, healthBarAlive;
      ghost var barEvents := if bar then [HealthBarUpdated(currentHealth, maxHealth)] else [];
      UpdateHealthBar();
      if damageNumbersManager != null {
        // the damage number receives the unrounded damage
        var _ := damageNumbersManager.SpawnDamageNumber(position.Plus(Up), damage);
      }
      ReactToHit();
      AppendTwice(e0, barEvents, ReactionEvents(currentHealth, bar, animator, agent, hasBloodDecalPrefab));
    }

    /** The health-bar refresh of ApplyDamage, skipped once the bar is gone. */
    method UpdateHealthBar()
      modifies this`events
      ensures events == old(events) + (if healthBarAlive then [HealthBarUpdated(currentHealth, maxHealth)] else [])
    {
      if healthBarAlive {
        events := events + [HealthBarUpdated(currentHealth, maxHealth)];
      }
    }

    /** The rest of ApplyDamage: hit reaction or warning, blood decal, and Die at 0. */
    method ReactToHit()
      modifies this`events, this`agentStopped, this`healthBarAlive
      ensures events == old(events)
        + ReactionEvents(currentHealth, old(healthBarAlive), animator, agent, hasBloodDecalPrefab)
      ensures healthBarAlive == (old(healthBarAlive) && currentHealth > 0)
      ensures agentStopped == (old(agentStopped) || (animator && agent))
    {
      ghost var e0 := events;
      ghost var reaction := [if animator && agent then HitReaction else AnimatorOrAgentMissing];
      ghost var decal := [if hasBloodDecalPrefab then BloodDecalSpawned else BloodDecalMissing];
      ghost var death := if currentHealth <= 0 then DeathEvents(animator, healthBarAlive) else [];
      if animator && agent {
        agentStopped := true;
        events := events + [HitReaction];
      } else {
        events := events + [AnimatorOrAgentMissing];
      }
      SpawnBloodDecal();
      if currentHealth <= 0 {
        Die();
      }
      AppendTwice(e0 + reaction, decal, death);
      AppendTwice(e0, reaction, decal + death);
      AppendTwice(reaction, decal, death);
    }

    method SpawnBloodDecal()
      modifies this`events
      ensures events == old(events) + [if hasBloodDecalPrefab then BloodDecalSpawned else BloodDecalMissing]
    {
      if hasBloodDecalPrefab {
        events := events + [BloodDecalSpawned];
      } else {
        events := events + [BloodDecalMissing];
      }
    }

    /** Die: runs on every hit that leaves the health at 0, including hits to an enemy already dead. */
    method Die()
      modifies this`events, this`healthBarAlive
      ensures events == old(events) + DeathEvents(animator, old(healthBarAlive))
      ensures !healthBarAlive
    {
      if animator {
        events := events + [DeathAnimation];
      }
      if healthBarAlive {
        events := events + [HealthBarDestroyed];
        healthBarAlive := false;
      }
      events := events + [DestroyScheduled(2.0)];
    }

    /** The re-enable timer started by a hit reaction has run out. */
    method HitAnimationFinished()
      modifies this`agentStopped
      ensures agentStopped == (old(agentStopped) && !agent)
    {
      if agent {
        agentStopped := false;
      }
    }
  }

  lemma AppendTwice<T>(s: seq<T>, a: seq<T>, b: seq<T>)
    ensures s + a + b == s + (a + b)
  {
  }

  /** Die runs exactly when the hit leaves the health at 0 (for a non-negative maxHealth). */
  lemma DiesIffHealthZero(current: int, maxHealth: int, damage: real, animator: bool, agent: bool,
                          bar: bool, blood: bool)
    requires 0 <= maxHealth
    ensures var h := DamagedHealth(current, maxHealth, damage);
      (DestroyScheduled(2.0) in HitEvents(h, maxHealth, bar, animator, agent, blood)) <==> h == 0
  {
    var h := DamagedHealth(current, maxHealth, damage);
    var e := HitEvents(h, maxHealth, bar, animator, agent, blood);
    if h == 0 {
      assert e[|e| - 1] == DestroyScheduled(2.0);
    }
  }

  /** A hit whose rounded damage reaches the remaining health kills: the health is 0 and Die runs. */
  lemma LethalHitKills(current: int, maxHealth: int, damage: real, animator: bool, agent: bool,
                       bar: bool, blood: bool)
    requires 0 <= current <= maxHealth && RoundToInt(damage) >= current
    ensures DamagedHealth(current, maxHealth, damage) == 0
    ensures DestroyScheduled(2.0) in HitEvents(0, maxHealth, bar, animator, agent, blood)
    ensures (animator ==> DeathAnimation in HitEvents(0, maxHealth, bar, animator, agent, blood))
  {
    DiesIffHealthZero(current, maxHealth, damage, animator, agent, bar, blood);
    var e := HitEvents(0, maxHealth, bar, animator, agent, blood);
    if animator {
      var pre := (if bar then [HealthBarUpdated(0, maxHealth)] else []) + [HitReaction] + [if blood then BloodDecalSpawned else BloodDecalMissing];
      assert e[|pre|] == DeathAnimation;
    }
  }

  /** A dead enemy stays at 0 under any damage that does not round below 0, and dies again. */
  lemma {:induction false} DeadStaysDead(maxHealth: int, damage: real, animator: bool, agent: bool,
                                         bar: bool, blood: bool)
    requires 0 <= maxHealth && damage >= -0.5
    ensures DamagedHealth(0, maxHealth, damage) == 0
    ensures DestroyScheduled(2.0) in HitEvents(DamagedHealth(0, maxHealth, damage), maxHealth, bar, animator, agent, blood)
  {
    DiesIffHealthZero(0, maxHealth, damage, animator, agent, bar, blood);
  }
}
