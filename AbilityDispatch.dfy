/**
 * The virtual call Ability.TriggerAbility(holder), resolved on the ability's
 * variant, and one whole frame of the holder: Update's cooldown bookkeeping
 * followed by each ability it called, in slot order.
 *
 * The abilities only read the holder (its spawn point and collider) and
 * only change objects they create, so running them after Update has set
 * the cooldowns leaves every object as running them inside the trigger
 * loop would, as long as no ability throws (an unset prefab or spawn point
 * is not modelled).
 */
module AbilityDispatch {
  import opened Scene
  import opened Hits
  import opened Projectiles
  import opened IceSpikes
  import opened AbilityData
  import opened AbilitySlots
  import FireballAbility
  import IceSpikesAbility

  /** The random draws and engine values one ice-spikes cast takes. */
  datatype Draws = Draws(randomSize: real, angles: seq<real>, headings: seq<Vec3>, ring: seq<Vec2>)

  /** An ice-spikes cast from the holder's spawn point with the given draws. */
  function CastOf(ability: Ability, at: Pose, d: Draws): IceSpikesAbility.Cast
  {
    IceSpikesAbility.Cast(ability, IceSpikesAbility.Origin(at.position), at.forward,
                          d.randomSize, d.angles, d.headings, d.ring)
  }

  /** What one TriggerAbility call puts into the scene. */
  datatype Spawned = Launched(fireball: Projectile) | Spiked(spikes: seq<IceSpike>, times: seq<real>)

  /**
   * TriggerAbility on either variant: a fireball launches one projectile
   * that deals its damage on hit, ice spikes lay out their spikes.
   */
  method TriggerAbility(ability: Ability, holder: AbilityHolder, d: Draws) returns (spawned: Spawned)
    requires ability.IceSpikes? ==> CastOf(ability, holder.SpawnPoint(), d).Drawn()
    ensures spawned.Launched? <==> ability.Fireball?
    ensures spawned.Launched? ==>
      && fresh(spawned.fireball)
      && spawned.fireball.onHit == Some(OnFireballHit(ability.fireballDamage))
      && spawned.fireball.position == holder.SpawnPoint().position
    ensures spawned.Spiked? ==>
      && |spawned.spikes| == (if ability.spikeSides < 0 then 0 else |d.angles|)
      && spawned.times == IceSpikesAbility.SpawnTimes(|spawned.spikes|, ability.spawnDelay)
      && (forall i :: 0 <= i < |spawned.spikes| ==> fresh(spawned.spikes[i]))
      && (forall i :: 0 <= i < |spawned.spikes| ==>
            IceSpikesAbility.View(spawned.spikes[i]) == IceSpikesAbility.Expected(CastOf(ability, holder.SpawnPoint(), d), i))
  {
    match ability
    case Fireball(_, _, _, _, _, _) =>
      var fireball := FireballAbility.TriggerAbility(ability, holder);
      spawned := Launched(fireball);
    case IceSpikes(_, _, _, _, _, _, _, _, _) =>
      var cast, spikes, times := IceSpikesAbility.TriggerAbility(ability, holder, d.randomSize, d.angles,
                                                                 d.headings, d.ring);
      spawned := Spiked(spikes, times);
  }

  /** Every ice-spikes slot has draws fit for a cast from the spawn point. */
  predicate DrawsFit(slots: seq<Option<Ability>>, at: Pose, draws: seq<Draws>)
  {
    |draws| == |slots|
    && forall i :: 0 <= i < |slots| && slots[i].Some? && slots[i].value.IceSpikes? ==>
         CastOf(slots[i].value, at, draws[i]).Drawn()
  }

  /**
   * One frame of the holder: Update, then TriggerAbility for each ability
   * Update called, in the same order, with the draws of its slot. Exactly
   * one spawn per call, placed as Spawns describes.
   */
  method RunFrame(holder: AbilityHolder, pressed: set<int>, dt: real, draws: seq<Draws>)
    returns (faulted: bool, spawned: seq<Spawned>)
    requires holder.Valid() && DrawsFit(holder.Slots(), holder.SpawnPoint(), draws)
    modifies holder`abilityCooldowns, holder`events, holder`invocations
    ensures holder.Valid()
    ensures var o := Frame(holder.Slots(), holder.abilityKeys, old(holder.abilityCooldowns), holder.barBound, pressed, dt);
      && holder.abilityCooldowns == o.cooldowns
      && holder.events == old(holder.events) + o.events
      && holder.invocations == old(holder.invocations) + o.invocations
      && faulted == o.faulted
      && |spawned| == |o.invocations|
      && (forall j :: 0 <= j < |spawned| ==> Spawns(holder, o.invocations[j], draws, spawned[j]))
  {
    ghost var cooldowns := holder.abilityCooldowns;
    var before := |holder.invocations|;
    faulted := holder.Update(pressed, dt);
    ghost var o := Frame(holder.Slots(), holder.abilityKeys, cooldowns, holder.barBound, pressed, dt);
    FrameCallsEquipped(holder.Slots(), holder.abilityKeys, cooldowns, holder.barBound, pressed, dt);
    var calls := holder.invocations[before..];
    assert calls == o.invocations;
    spawned := RunCalls(holder, calls, draws);
  }

  /**
   * TriggerAbility for each call in turn, each with the draws of its slot.
   * The holder is only read. A fireball is launched from the spawn point
   * and deals its ability's damage; ice spikes are laid out as Expected for
   * the cast from the spawn point with the slot's draws.
   */
  method RunCalls(holder: AbilityHolder, calls: seq<Invocation>, draws: seq<Draws>) returns (spawned: seq<Spawned>)
    requires DrawsFit(holder.Slots(), holder.SpawnPoint(), draws)
    requires forall j :: 0 <= j < |calls| ==>
      calls[j].slot < |holder.Slots()| && holder.Slots()[calls[j].slot] == Some(calls[j].ability)
    ensures |spawned| == |calls|
    ensures forall j :: 0 <= j < |spawned| ==> Spawns(holder, calls[j], draws, spawned[j])
  {
    spawned := [];
    while |spawned| < |calls|
      invariant |spawned| <= |calls|
      invariant forall j :: 0 <= j < |spawned| ==> Spawns(holder, calls[j], draws, spawned[j])
    {
      var call := calls[|spawned|];
      var s := TriggerAbility(call.ability, holder, draws[call.slot]);
      spawned := spawned + [s];
    }
  }

  /**
   * What one call puts into the scene: a projectile from the spawn point
   * subscribed with the fireball's damage, or the spikes of the cast from
   * the spawn point with the slot's draws.
   */
  ghost predicate Spawns(holder: AbilityHolder, call: Invocation, draws: seq<Draws>, s: Spawned)
    reads holder, holder.equippedAbilities
    reads if s.Launched? then {s.fireball} else {}
    reads if s.Spiked? then set k | 0 <= k < |s.spikes| :: s.spikes[k] else {}
    reads if s.Spiked? then set k | 0 <= k < |s.spikes| :: s.spikes[k].body else {}
    reads if s.Spiked? then set k | 0 <= k < |s.spikes| :: s.spikes[k].body.vertices else {}
    reads if s.Spiked? then set k | 0 <= k < |s.spikes| :: s.spikes[k].body.triangles else {}
  {
    && (s.Launched? <==> call.ability.Fireball?)
    && (s.Launched? ==>
          && s.fireball.position == holder.SpawnPoint().position
          && s.fireball.onHit == Some(OnFireballHit(call.ability.fireballDamage)))
    && (s.Spiked? ==>
          && call.slot < |draws|
          && |s.spikes| == (if call.ability.spikeSides < 0 then 0 else |draws[call.slot].angles|)
          && s.times == IceSpikesAbility.SpawnTimes(|s.spikes|, call.ability.spawnDelay)
          && CastOf(call.ability, holder.SpawnPoint(), draws[call.slot]).Drawn()
          && (forall i :: 0 <= i < |s.spikes| ==>
                i < |draws[call.slot].angles| && call.ability.spikeSides >= 0 &&
                IceSpikesAbility.View(s.spikes[i])
                == IceSpikesAbility.Expected(CastOf(call.ability, holder.SpawnPoint(), draws[call.slot]), i)))
  }
}
