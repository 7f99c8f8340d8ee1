# Ability, hit and damage pipeline of rouge-like-arpg

This project is a Dafny model of the combat core of the Unity game
rouge-like-arpg. It covers the pipeline from pressing an ability key to
showing a damage number:

- **Ability slots.** The player's `AbilityHolder` keeps a fixed-length
  array of equipped abilities (six slots by default), one trigger key per
  slot, and a dictionary of remaining
  cooldowns. Each frame it counts the cooldowns down, and then triggers
  every slot whose key went down, that holds an ability and that is not
  on cooldown. Triggering calls the ability and restarts the slot's
  cooldown at the ability's base cooldown.
- **Abilities.** A fireball launches one projectile. Ice spikes lay out a
  line of spikes inside a cone, nominally one every `spawnDelay` seconds. Spike `i`
  of `n` stands at `i/n` of the maximum distance and is tilted by a lerp
  from 60 to 10 degrees.
- **Entities.** A projectile flies until its first collision or until its
  lifetime runs out. An ice spike is a procedurally meshed crystal
  (`IceCrystalGenerator`) that rises, holds, sinks and is destroyed. Each
  entity reports at most one hit across physics steps to the handler the
  ability subscribed, and then it is destroyed.
- **Damage.** A hit handler applies the ability's base damage to the
  `EnemyHealth` of the collider, if the collider has one. The damage is
  rounded, subtracted and clamped to `[0, maxHealth]`. The enemy dies
  whenever its health is 0. `PlayerHealth` subtracts without clamping.
- **Damage numbers.** Each enemy hit draws a floating damage number from
  the FIFO pool of `DMGNumbersManager`. The pool is pre-warmed at start,
  and a number is returned to the pool when its animation ends.

The model follows the code's own structure:

- State that the code updates in place is a Dafny `class` with `modifies`
  clauses. This covers the holder, the projectile, the ice spike, the
  crystal, the pool manager and the two health components.
- Each mutating method is proved against a specification function:
  `Frame`, `Decremented`, `AfterTriggers`, `Invocations`, `Spawn`,
  `Return`, `Prewarm`, `DamagedHealth`, `Vertices`, `Triangles` and
  `Expected`.
- Lemmas state the properties of those functions.
- Presentation side effects are recorded in append-only event logs:
  health bars, animations, blood decals, ability-bar notifications and
  warnings.
- Engine values are parameters: random draws, trigonometry, delta times,
  pressed keys and the spawn point.

Three details of the code that the model keeps:

- `Random.Range` on floats can return either bound (`Scene.InRange`).
- The tilt of the last spike is `lerp(60, 10, (n-1)/n)`, which is above
  10 degrees (`IceSpikesAbility.TiltsFlatten`).
- `AbilityHolder.Update` runs on every instance, owned or not; only the
  binding of the HUD bar checks ownership.

## Model

| member | source | states |
|---|---|---|
| Scene.RoundToInt | Assets/Enemies/EnemyHealth.cs:53 | Mathf.RoundToInt: the result is within 0.5 of the input, the nearest integer, and the even neighbour on a tie |
| Scene.ClampInt | Assets/Enemies/EnemyHealth.cs:54 | Mathf.Clamp on ints: within [min, max] when min <= max, the value itself when inside, min when below, max when above a non-empty range |
| Scene.Lerp | Assets/Abilities/IceSpikes/IceSpikesAbility.cs:46 | Mathf.Lerp clamps its parameter: a at or below t = 0, b at or above t = 1, a + (b - a) * t in between, and always between the two ends |
| Scene.LerpMonotone | Assets/Abilities/IceSpikes/IceSpikesAbility.cs:46 | Lerp moves monotonically from a towards b as t grows |
| DamageNumbers.CreateEntry | Assets/FX/DamageNumbers/DMGNumbersManager.cs:24-31 | a new inactive entry whose handle is the next arena index, appended to the back of the queue; well-formedness is kept |
| DamageNumbers.Prewarm | Assets/FX/DamageNumbers/DMGNumbersManager.cs:15-22 | the pre-warm loop creates exactly max(count, 0) entries |
| DamageNumbers.Spawn | Assets/FX/DamageNumbers/DMGNumbersManager.cs:33-56 | the chosen entry becomes active at the position and shows RoundToInt(damage), and no other entry changes; a non-empty queue gives up its front and creates nothing (FIFO); an empty queue creates one entry that stays queued; entries are never lost |
| DamageNumbers.Return | Assets/FX/DamageNumbers/DMGNumbersManager.cs:58-62 | the entry is deactivated and appended to the back, with no guard against a second return; no other entry changes |
| DamageNumbers.DMGNumbersManager.Start | Assets/FX/DamageNumbers/DMGNumbersManager.cs:15-22 | the loop leaves the pool in the state Prewarm(old state, initialPoolSize) |
| DamageNumbers.DMGNumbersManager.CreateNewDamageNumber | Assets/FX/DamageNumbers/DMGNumbersManager.cs:24-31 | the new state and the returned handle are those of CreateEntry |
| DamageNumbers.DMGNumbersManager.SpawnDamageNumber | Assets/FX/DamageNumbers/DMGNumbersManager.cs:33-56 | the new state and the returned handle are those of Spawn |
| DamageNumbers.DMGNumbersManager.ReturnToPool | Assets/FX/DamageNumbers/DMGNumbersManager.cs:58-62 | the new state is Return(old state, handle) |
| DamageNumbers.PrewarmFillsQueue | Assets/FX/DamageNumbers/DMGNumbersManager.cs:15-31 | after Start on an empty manager, the queue holds handles 0..n-1 in order and every entry is inactive |
| DamageNumbers.EmptyPoolHandsOutActiveEntryTwice | Assets/FX/DamageNumbers/DMGNumbersManager.cs:40-47 | two spawns from an empty pool hand out the same entry, the second while it is still active, and create only one entry |
| Enemies.DamagedHealth | Assets/Enemies/EnemyHealth.cs:50-54 | health stays in [0, maxHealth]; inside the range it is health minus the rounded damage; an overkill gives exactly 0 and an over-heal exactly maxHealth; positive damage never heals |
| Enemies.EnemyHealth.Start | Assets/Enemies/EnemyHealth.cs:26-48 | full health; animator and agent looked up; the health bar is shown, or a warning is logged when there is no prefab |
| Enemies.EnemyHealth.ApplyDamage | Assets/Enemies/EnemyHealth.cs:50-92 | health becomes DamagedHealth; the bar update, hit reaction or warning, blood decal and Die are logged in that order; the pool shows a number for the unrounded damage one unit above the enemy |
| Enemies.EnemyHealth.UpdateHealthBar | Assets/Enemies/EnemyHealth.cs:58-62 | the bar is updated only while it exists |
| Enemies.EnemyHealth.ReactToHit | Assets/Enemies/EnemyHealth.cs:70-91 | the agent stops and the hit trigger fires only when both animator and agent are present, otherwise only a warning; Die at 0 removes the bar |
| Enemies.EnemyHealth.SpawnBloodDecal | Assets/Enemies/EnemyHealth.cs:110-135 | a decal when the prefab is set, otherwise a warning |
| Enemies.EnemyHealth.Die | Assets/Enemies/EnemyHealth.cs:161-179 | death animation when there is an animator, bar destroyed when it exists, destruction scheduled after 2 s |
| Enemies.EnemyHealth.HitAnimationFinished | Assets/Enemies/EnemyHealth.cs:94-108 | the re-enable timer restarts the agent when there is one |
| Enemies.LethalHitKills | Assets/Enemies/EnemyHealth.cs:50-91 | a hit whose rounded damage reaches the current health leaves 0, schedules destruction after 2 s and plays the death animation when there is an animator |
| Enemies.DiesIffHealthZero | Assets/Enemies/EnemyHealth.cs:87-91 | Die runs after a hit exactly when the health it leaves is 0 |
| Enemies.DeadStaysDead | Assets/Enemies/EnemyHealth.cs:50-91 | a dead enemy stays at 0 under any damage that does not round below 0, and Die (destruction after 2 s) runs again on that hit |
| Player.PlayerHealth.OnStartClient | Assets/Player/PlayerHealth.cs:20-29 | only the owner binds and fills the HUD health bar |
| Player.PlayerHealth.Start | Assets/Player/PlayerHealth.cs:31-38 | full health, child animator looked up |
| Player.PlayerHealth.TakeDamage | Assets/Player/PlayerHealth.cs:49-66 | health drops by the damage with no clamp; without an animator the call stops at the hit trigger after the drop; otherwise the hit animation, the bar update when bound, the decal or warning, and Die at or below 0 |
| Player.PlayerHealth.SpawnBloodDecal | Assets/Player/PlayerHealth.cs:68-95 | a decal when the prefab is set, otherwise a warning |
| Player.PlayerHealth.Die | Assets/Player/PlayerHealth.cs:122-126 | Die only logs the death |
| Player.PlayerHealth.Update | Assets/Player/PlayerHealth.cs:41-47 | the debug key T deals 10 damage |
| Player.HealthGoesNegativeAndDieRepeats | Assets/Player/PlayerHealth.cs:49-66 | a hit larger than the health leaves it negative, and that hit and every later hit call Die |
| Player.DiesIffAtOrBelowZero | Assets/Player/PlayerHealth.cs:61-65 | Die is called exactly when the health after the subtraction is at or below 0 |
| Hits.DamageTarget | Assets/Abilities/Fireball/FireballAbility.cs:25-34 | a hit applies the damage to the collider's EnemyHealth once, and changes nothing when there is none |
| Hits.Invoke | Assets/Abilities/IceSpikes/IceSpikesAbility.cs:67-76 | the subscribed handler applies its ability's base damage to the collider's enemy, and nothing otherwise |
| Projectiles.HitEffectRotation | Assets/Projectiles/Scripts/Projectile.cs:97-114 | precedence: the fire-point rotation turned 180 degrees, else a non-zero rotation offset, else looking at contact point plus normal; each case exactly when its guard holds |
| Projectiles.Instantiate | Assets/Projectiles/Scripts/Projectile.cs:6-30 | a fresh projectile with the prefab's settings at the given pose, flying, not yet fired or subscribed, with one fresh attachment per set Detached slot |
| Projectiles.Projectile.Subscribe | Assets/Abilities/Fireball/FireballAbility.cs:21 | the hit event holds the handler |
| Projectiles.Projectile.Fire | Assets/Projectiles/Scripts/Projectile.cs:59-78 | ignores the caster's collider only when the caster and its collider exist; adopts the speed iff it is positive; takes the lifetime; flash spawned iff there is a flash prefab; destruction scheduled iff the lifetime is finite |
| Projectiles.Projectile.SpawnFlashEffect | Assets/Projectiles/Scripts/Projectile.cs:80-90 | a flash at the projectile's position facing its forward axis, only when the prefab is set |
| Projectiles.Projectile.FixedUpdate | Assets/Projectiles/Scripts/Projectile.cs:32-38 | velocity becomes forward * speed only when the speed is not 0 |
| Projectiles.Projectile.OnCollisionEnter | Assets/Projectiles/Scripts/Projectile.cs:40-57 | on a flying projectile and a collider that is not ignored: frozen with speed 0, impact effect, trails detached, the collider reported once to the handler, which damages its enemy, then destroyed; otherwise nothing changes; at most one hit is reported across physics steps |
| Projectiles.Projectile.ResolveHit | Assets/Projectiles/Scripts/Projectile.cs:42-56 | the hit sequence: the projectile side, then the handler with the collider, then destruction |
| Projectiles.Projectile.StopAndDetach | Assets/Projectiles/Scripts/Projectile.cs:42-50 | freeze, speed 0, the impact effect when there is one, every trail detached, the collider recorded |
| Projectiles.Projectile.SpawnHitEffect | Assets/Projectiles/Scripts/Projectile.cs:92-119 | no effect without a hit prefab; otherwise one at contact point plus normal * hitOffset, with HitEffectRotation |
| Projectiles.Projectile.DetachObjects | Assets/Projectiles/Scripts/Projectile.cs:121-130 | every non-null Detached entry is unparented, and the nulls are skipped |
| Projectiles.Projectile.LifetimeElapsed | Assets/Projectiles/Scripts/Projectile.cs:73-77 | the scheduled destruction destroys the projectile without reporting a hit |
| IceCrystals.NextOnRing | Assets/Abilities/IceSpikes/IceCrystalGenerator.cs:56 | (i+1) % n + 1 is the next ring vertex, and the last wraps to vertex 1 |
| IceCrystals.IceCrystalGenerator.constructor | Assets/Abilities/IceSpikes/IceCrystalGenerator.cs:13-19 | the generator keeps its side count, base radius and height |
| IceCrystals.BuildVertices | Assets/Abilities/IceSpikes/IceCrystalGenerator.cs:39-47 | a fresh vertex array of length sides + 2 equal to Vertices: centre, scaled ring, tip |
| IceCrystals.VertexAt | Assets/Abilities/IceSpikes/IceCrystalGenerator.cs:40-47 | vertex 0 is the origin, vertex k in 1..sides is ring point k-1 scaled at height 0, vertex sides+1 is (0, height, 0) |
| IceCrystals.BuildTriangles | Assets/Abilities/IceSpikes/IceCrystalGenerator.cs:49-62 | a fresh triangle array of length 6 * sides equal to Triangles |
| IceCrystals.BaseTriangle | Assets/Abilities/IceSpikes/IceCrystalGenerator.cs:53-56 | base triangle j is (0, j+1, next ring vertex) |
| IceCrystals.SideTriangle | Assets/Abilities/IceSpikes/IceCrystalGenerator.cs:58-61 | side triangle j is (j+1, sides+1, next ring vertex) |
| IceCrystals.TriangleSlots | Assets/Abilities/IceSpikes/IceCrystalGenerator.cs:50-61 | base triangle i is in slots 3i..3i+2 as (0, i+1, (i+1)%sides+1); side triangle i is in slots 3*sides+3i..+2 as (i+1, sides+1, (i+1)%sides+1) |
| IceCrystals.BaseFanInRange | Assets/Abilities/IceSpikes/IceCrystalGenerator.cs:53-56 | every base index is in [0, sides+1] |
| IceCrystals.SideFanInRange | Assets/Abilities/IceSpikes/IceCrystalGenerator.cs:58-61 | every side index is in [0, sides+1] |
| IceCrystals.IndicesNameVertices | Assets/Abilities/IceSpikes/IceCrystalGenerator.cs:39-62 | every triangle index is a valid index into the vertex array |
| IceCrystals.TrianglesAreProper | Assets/Abilities/IceSpikes/IceCrystalGenerator.cs:51-62 | with at least two sides, no triangle repeats a vertex |
| IceCrystals.ThreeSidedCrystal | Assets/Abilities/IceSpikes/IceCrystalGenerator.cs:39-62 | the default three-sided crystal has 5 vertices and the 18 listed indices |
| IceCrystals.RingOnBaseCircle | Assets/Abilities/IceSpikes/IceCrystalGenerator.cs:42-46 | ring vertices lie at height 0 at distance baseRadius from the centre |
| IceCrystals.IceCrystalGenerator.Generate | Assets/Abilities/IceSpikes/IceCrystalGenerator.cs:25-74 | a fresh crystal at the given position and rotation with fresh vertex and triangle arrays holding exactly the Vertices and Triangles mesh; null exactly when the side count is negative |
| IceSpikes.AnimationSequence | Assets/Abilities/IceSpikes/IceSpike.cs:24-47 | rise, then hold, then sink, then destroy, 0.2 s each, 0.6 s in all |
| IceSpikes.DestroyedIsFinal | Assets/Abilities/IceSpikes/IceSpike.cs:42-46 | a destroyed spike stays destroyed |
| IceSpikes.RisingEndsDestroyed | Assets/Abilities/IceSpikes/IceSpike.cs:24-47 | from Rising the spike is destroyed exactly after three phase completions |
| IceSpikes.IceSpike.Initialize | Assets/Abilities/IceSpikes/IceSpike.cs:12-22 | uniform scale size, lowered by size, rise target 0.9 * size above that, which is 0.1 * size below the original height |
| IceSpikes.IceSpike.AnimateSpike | Assets/Abilities/IceSpikes/IceSpike.cs:24-47 | the sequence rises to startPosition.y and sinks to startPosition.y - sizeMultiplier, starting with Rising |
| IceSpikes.IceSpike.Subscribe | Assets/Abilities/IceSpikes/IceSpikesAbility.cs:60 | the hit event holds the handler |
| IceSpikes.IceSpike.CompletePhase | Assets/Abilities/IceSpikes/IceSpike.cs:35-46 | the phase advances by NextPhase; the rise ends at the rise target and the sink at the sink target |
| IceSpikes.IceSpike.OnTriggerEnter | Assets/Abilities/IceSpikes/IceSpike.cs:49-53 | the collider is reported to the handler, which damages its enemy, and the spike is destroyed; a destroyed spike reports nothing more; at most one hit is reported across physics steps |
| IceSpikesAbility.SpawnTimes | Assets/Abilities/IceSpikes/IceSpikesAbility.cs:33-63 | the nominal spawn times, one per spike: 0 for the first and strictly increasing for a positive delay; they label the spikes, the loop computes no wait |
| IceSpikesAbility.FractionStepsUp | Assets/Abilities/IceSpikes/IceSpikesAbility.cs:36 | i/count is in [0, 1) and strictly increasing |
| IceSpikesAbility.DistancesSpreadOut | Assets/Abilities/IceSpikes/IceSpikesAbility.cs:36 | the distance is 0 for the first spike, strictly increasing, and always below maxDistance |
| IceSpikesAbility.TiltsFlatten | Assets/Abilities/IceSpikes/IceSpikesAbility.cs:46 | the tilt is 60 for the first spike, strictly decreasing, and always above 10 |
| IceSpikesAbility.ExpectedSpikeDistance | Assets/Abilities/IceSpikes/IceSpikesAbility.cs:22-43 | with unit headings, spike i is placed exactly Distance(i) from the cast's origin (its buried crystal spikeSize below that point), and on the origin's ground plane when its heading is horizontal, which it is whenever the spawn point's forward axis is horizontal |
| IceSpikesAbility.SpikeOnGround | Assets/Abilities/IceSpikes/IceSpikesAbility.cs:42-43 | with a horizontal unit heading, the spike stands on the ground plane at the planned distance from the origin |
| IceSpikesAbility.DefaultLayout | Assets/Abilities/IceSpikes/IceSpikesAbility.cs:6-63 | defaults: spike i at 0.9 * i, tilted 60 - 5 * i, nominally spawned at 0.05 * i; the last spike is nominally gone 1.05 s after the trigger |
| IceSpikesAbility.ThreeSpikeSchedule | Assets/Abilities/IceSpikes/IceSpikesAbility.cs:63 | nominal spawns 0.05 s apart start at 0, 0.05, 0.10 |
| IceSpikesAbility.Expected | Assets/Abilities/IceSpikes/IceSpikesAbility.cs:28-60 | each spike rises 0.9 * spikeSize from its buried position and sinks spikeSize from its rise target |
| IceSpikesAbility.SpawnSpike | Assets/Abilities/IceSpikes/IceSpikesAbility.cs:36-60 | one fresh spike on a fresh crystal set up as Expected: position from the heading and distance, yaw within the cone then tilted, the shared mesh, scale spikeSize and not the random height, buried, rising, subscribed to HandleSpikeHit; null when Generate throws |
| IceSpikesAbility.SpawnSpikes | Assets/Abilities/IceSpikes/IceSpikesAbility.cs:28-65 | one generator per cast; exactly spikeCount distinct fresh spikes (none when the side count is negative), spike i as Expected and labelled with the nominal time i * spawnDelay |
| IceSpikesAbility.TriggerAbility | Assets/Abilities/IceSpikes/IceSpikesAbility.cs:17-26 | the cone starts at the spawn point dropped to the ground, along its forward axis; the holder is not changed |
| FireballAbility.TriggerAbility | Assets/Abilities/Fireball/FireballAbility.cs:11-23 | exactly one fresh projectile at the spawn point's pose, subscribed to OnFireballHit with the base damage, fired with the holder's collider ignored, the ability's speed when positive, and its lifetime; the holder is not changed |
| AbilityDispatch.TriggerAbility | Assets/Abilities/AbilitySO.cs:13 | the virtual call launches a projectile exactly for a fireball and lays out spikes for ice spikes |
| AbilityDispatch.RunFrame | Assets/Player/AbilityHolder.cs:32-48 | one frame: the holder's state is Frame's, and each call Update made spawns exactly one thing, in the same order, as for RunCalls |
| AbilityDispatch.RunCalls | Assets/Player/AbilityHolder.cs:38-47 | one spawn per call, in call order: a fireball launches a projectile from the spawn point that deals its damage on hit; ice spikes lay out the spikes Expected for the cast from the spawn point with the slot's draws, one spawn time each |
| AbilitySlots.OnCooldown | Assets/Player/AbilityHolder.cs:62-65 | IsAbilityOnCooldown: an entry exists and is positive; no entry means ready (used by FrameRule, TriggerStep, DecrementStep) |
| AbilitySlots.Fires | Assets/Player/AbilityHolder.cs:38-47 | a slot triggers when its key went down, it holds an ability and it is not on cooldown (used by TriggerRule and FrameRule) |
| AbilitySlots.Frame | Assets/Player/AbilityHolder.cs:32-48 | one Update as a value: the frame faults exactly when some key faults, and a faulted frame calls no ability |
| AbilitySlots.AbilityHolder.SpawnPoint | Assets/Player/AbilityHolder.cs:103-106 | GetProjectileSpawnPoint: the pose every ability is cast from (used by TriggerAbility and RunCalls) |
| AbilitySlots.FirstFault | Assets/Player/AbilityHolder.cs:50-60 | the faulting key, if any, is in range |
| AbilitySlots.FirstFaultIsFirst | Assets/Player/AbilityHolder.cs:50-60 | FirstFault finds the first key at which the cooldown loop faults, and None means no key faults |
| AbilitySlots.TriggerRule | Assets/Player/AbilityHolder.cs:38-47 | after the trigger loop, every slot that fired is at exactly its base cooldown, every other entry is unchanged, and no entry appears except for a fired slot |
| AbilitySlots.InvocationsInSlotOrder | Assets/Player/AbilityHolder.cs:38-47 | the loop calls only slots that fire, each with its own ability, at most once and in slot order |
| AbilitySlots.FiredSlotsInvoked | Assets/Player/AbilityHolder.cs:38-47 | every slot that fires is called |
| AbilitySlots.DecrementStep | Assets/Player/AbilityHolder.cs:52-58 | visiting a key decrements exactly that key when it is on cooldown |
| AbilitySlots.FaultStep | Assets/Player/AbilityHolder.cs:52-58 | visiting a key either faults there or adds at most one notification |
| AbilitySlots.TriggerStep | Assets/Player/AbilityHolder.cs:38-47 | when a slot is visited, its cooldown is still the decremented one |
| AbilitySlots.FrameRule | Assets/Player/AbilityHolder.cs:32-65 | in a frame without a fault, slot k fires iff its key is pressed, it holds an ability and its cooldown after this frame's decrement is not positive; a fired slot is called and restarts at base cooldown; an unfired entry only loses dt while positive, with no clamp at 0; a slot with no entry gets none; an unfired slot is not called |
| AbilitySlots.UnfiredSlotNotInvoked | Assets/Player/AbilityHolder.cs:40-45 | a slot that does not fire is never called |
| AbilitySlots.FrameCallsEquipped | Assets/Player/AbilityHolder.cs:32-48 | a frame calls only abilities equipped in their slot, at most once per slot and in slot order; a faulted frame calls none |
| AbilitySlots.SameFrameFire | Assets/Player/AbilityHolder.cs:35-47 | a slot whose cooldown reaches 0 or below in this frame's decrement fires in the same frame |
| AbilitySlots.CountdownExpires | Assets/Player/AbilityHolder.cs:50-65 | between triggers a cooldown never rises, drops by exactly the elapsed time while that is below it, and expires once the elapsed time reaches it |
| AbilitySlots.FireballCooldownScenario | Assets/Player/AbilityHolder.cs:32-76 | a 2 s fireball fires at t=0, is refused at t=0.5 with 1.5 left (the bar is told), and fires again at t=2 |
| AbilitySlots.FiresFromRest | Assets/Player/AbilityHolder.cs:38-47 | a slot with no entry, or one that runs out in this frame, fires and restarts at 2.0 |
| AbilitySlots.RefusedOnCooldown | Assets/Player/AbilityHolder.cs:50-65 | a slot with 1.5 left after the decrement is refused, and the bar is told 1.5 of 2.0 |
| AbilitySlots.AbilityHolder.OnStartClient | Assets/Player/AbilityHolder.cs:18-30 | only the owner binds the bar, sends it the keys and re-equips every slot with its own ability |
| AbilitySlots.AbilityHolder.Update | Assets/Player/AbilityHolder.cs:32-48 | the new cooldowns, notifications and calls are those of Frame: decrement everything, then trigger in slot order; a fault ends the frame |
| AbilitySlots.AbilityHolder.HandleInput | Assets/Player/AbilityHolder.cs:38-47 | the trigger loop's cooldowns and calls are AfterTriggers and Invocations |
| AbilitySlots.AbilityHolder.UpdateCooldowns | Assets/Player/AbilityHolder.cs:50-60 | the keys up to the first fault, or all keys, are decremented and notified |
| AbilitySlots.AbilityHolder.DecrementKey | Assets/Player/AbilityHolder.cs:52-58 | one iteration: the key is decremented when on cooldown, and notified unless it faults |
| AbilitySlots.AbilityHolder.TriggerAbility | Assets/Player/AbilityHolder.cs:67-76 | the ability is called, then the slot's cooldown is set to exactly its base cooldown; no other entry changes |
| AbilitySlots.AbilityHolder.EquipAbility | Assets/Player/AbilityHolder.cs:78-88 | an index out of range changes no slot and logs an error; otherwise the slot is replaced and the bar told; the cooldown is never touched |
| AbilitySlots.AbilityHolder.UnequipAbility | Assets/Player/AbilityHolder.cs:90-101 | an index out of range changes nothing but the error log; otherwise the slot is emptied and its cooldown entry removed |

## Left out

- Frame timing, input and randomness are parameters. This covers
  `Time.deltaTime`, `Input.GetKeyDown` (the set of pressed keys), the
  crystal height and cone yaws drawn by `Random.Range`, and the
  projectile's contact point.
- Trigonometry and quaternions are not computed. The ring of the crystal
  base (`Cos`/`Sin`) and each spike's world heading are parameters.
  Rotations are symbolic (`Scene.Rotation`). `spawnPoint.forward.normalized`
  is taken to be the spawn point's forward axis as given.
- DOTween easing is not modelled. `IceSpike.CompletePhase` stands for the
  tween timer, and a phase ends with the spike at its target height.
- The coroutine's waits are modelled as the nominal time at which each
  spike is spawned (`SpawnTimes`), not as a schedule interleaved with
  other frames. `WaitForSeconds` resumes on the first frame after its
  delay and the next wait starts from there, so spike i really appears
  at or after `i * spawnDelay`, later by up to a frame per wait. The
  DOTween phases are quantised to frames in the same way.
- The coroutine stopping when its holder is destroyed is not modelled.
- `IceSpikesAbility.SpawnSpikes`: a negative side count makes `Generate`
  throw. This is modelled as a null crystal that ends the loop with no
  spike. The code has already created the empty "IceCrystal" object with
  its mesh filter and renderer when it throws, so one such object is
  left in the scene per cast; the model does not record it.
- AbilityDispatch.RunFrame: abilities run after `Update` rather than
  inside its trigger loop. The abilities only read the holder and only
  change objects they create, so the resulting objects are the same
  when no ability throws.
- AbilityDispatch.RunFrame: abilities are assumed to be configured: the
  fireball's prefab is set and carries a `Projectile`, and the holder's
  spawn point is set. Otherwise the code throws inside
  `TriggerAbility(this)`. That slot's cooldown is not set, no later slot
  fires, and the rest of that `Update` does not run. The model does not
  capture this fault; it always sets the cooldown and runs every slot
  that fires.
- FishNet ownership is a boolean parameter of `OnStartClient`.
- `Destroy` is deferred in Unity until the end of the frame. The model
  marks the entity destroyed at once and delivers no further callback to
  it. It models neither the frame in which the object disappears nor the
  further contacts Unity can still deliver within the same physics step.
- Projectiles.Projectile.OnCollisionEnter: a second contact in the same
  physics step as the first is not modelled. Unity can deliver it before
  the deferred `Destroy` takes effect, so the code can report two hits
  then; the model's at-most-one-hit holds across physics steps only.
- IceSpikes.IceSpike.OnTriggerEnter: as for the projectile, several
  overlaps in the same physics step as the first are not modelled, and
  the at-most-one-hit property holds across physics steps only.
- Numeric widths are not modelled. C# `int` values are unbounded `int`
  here, and `float` values (cooldowns, `Time.deltaTime`, distances, tilt
  fractions, positions) are exact `real`s rather than IEEE single
  precision.
- Player.PlayerHealth.TakeDamage: `currentHealth` is a 32-bit `int` in
  the code, so a large enough total of damage wraps around; the model's
  health keeps decreasing without wrapping.
- AbilitySlots.CountdownExpires: with single-precision floats a cooldown
  drops by the rounded difference, not exactly by the elapsed time; the
  lemma is about exact arithmetic.
- IceSpikesAbility.TiltsFlatten: in single precision `i / count` rounds to
  1.0 for counts above 2^24, so the last tilt can reach exactly 10; the
  "above 10" bound holds for exact arithmetic.
- Particle-system durations of effects are not modelled.
- The blood decal's fade-out coroutine, the damage number's float-and-fade
  animation and the health-bar lerp are not modelled. The model records
  that each was started, or that `ReturnToPool` is called when the
  animation ends.
- The Animator and NavMeshAgent are reduced to event-log entries and a
  stopped flag.
- Ability icons, animation clips, materials and the spike's `BoxCollider`
  are not modelled. They carry no logic.
- Debug and warning logs are events only where the code branches on them.
- Hit events (`OnHit`, `OnSpikeHit`) hold at most one subscriber, which is
  the only way the code uses them.
- `AbilityHolder`: the model covers only a key array and an ability
  array of the same length. The code does not require it: the HUD bar
  only logs a mismatch. `Update` loops over the keys and reads the slot
  only once the key went down, while `UpdateCooldowns` and
  `OnStartClient` loop over the slots. With fewer keys than slots the
  extra slots can never be fired by a key, and nothing goes out of
  range. With more keys than slots, `Update` throws only in a frame in
  which a key past the last slot goes down.
- `AbilityHolder` is not gated by ownership in `Update`; only the HUD bar
  binding depends on the owner flag.
- AbilitySlots.AbilityHolder.UpdateCooldowns: the null reference when
  notifying the bar about an empty slot on cooldown is modelled as a
  fault that ends the frame. The code throws there, so the rest of
  `Update` does not run that frame.
- IceCrystals.BuildTriangles: the final array contents are stated, not
  that each slot is written exactly once.
- IceCrystals.TrianglesAreProper: a crystal with one side gives
  degenerate triangles, and zero sides gives an empty mesh. The lemma
  covers two or more sides.
- IceSpikesAbility.SpawnSpike: the spike is animated before its hit
  handler is subscribed. The two steps touch disjoint state, so their
  order is not observable in the model.
- Projectiles.Projectile.OnCollisionEnter: the order of the
  impact-effect, detach and report steps is not observable in the model.
  The handler runs before the projectile is marked destroyed.
