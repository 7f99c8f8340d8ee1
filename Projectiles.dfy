/**
 * The projectile entity (Projectile): a body flying at constant speed along
 * its forward axis until its first collision, which freezes it, spawns the
 * impact effect, detaches the trail objects, reports the collider to the hit
 * handler and destroys it; or until its lifetime runs out.
 *
 * Engine callbacks (FixedUpdate, OnCollisionEnter, the lifetime timer) are
 * only delivered while the projectile exists, and never for a collider whose
 * collisions with it are ignored; the methods below model that by doing
 * nothing in those cases.
 */
module Projectiles {
  import opened Scene
  import opened Enemies
  import opened Hits

  /** The authored template a projectile is instantiated from. */
  datatype ProjectilePrefab = ProjectilePrefab(
    speed: real,
    lifeTime: Lifetime,
    hitOffset: real,
    hasHitEffect: bool,
    detached: seq<bool>,             // one entry per Detached slot: true when the slot is set
    hasFlash: bool,
    useFirePointRotation: bool,
    rotationOffset: Vec3)

  /** The caster's game object, as far as Fire sees it: the collider on it, if any. */
  datatype Caster = Caster(collider: Option<nat>)

  datatype Contact = Contact(point: Vec3, normal: Vec3)

  datatype Collision = Collision(collider: Collider, contact: Contact)

  /** Visual effects the projectile spawns. */
  datatype Effect = Flash(position: Vec3, forward: Vec3) | HitEffect(position: Vec3, rotation: Rotation)

  datatype ProjectileState = Flying | Destroyed

  /**
   * The final rotation of the impact effect. It is instantiated facing away
   * from the contact normal, but that rotation is always overwritten: the
   * fire-point rotation turned half a turn wins, then a non-zero rotation
   * offset, then looking at the contact point plus the normal.
   */
  function HitEffectRotation(useFirePointRotation: bool, rotationOffset: Vec3, projectileRotation: Rotation,
                             contact: Contact): (r: Rotation)
    ensures r.Then? <==> useFirePointRotation
    ensures r.Then? ==> r == Then(projectileRotation, Vec3(0.0, 180.0, 0.0))
    ensures r.Euler? <==> !useFirePointRotation && !ApproximatelyZero(rotationOffset)
    ensures r.Euler? ==> r.angles == rotationOffset
    ensures r.LookingAt? <==> !useFirePointRotation && ApproximatelyZero(rotationOffset)
    ensures r.LookingAt? ==> r.target == contact.point.Plus(contact.normal)
  {
    if useFirePointRotation then Then(projectileRotation, Vec3(0.0, 180.0, 0.0))
    else if !ApproximatelyZero(rotationOffset) then Euler(rotationOffset)
    else LookingAt(contact.point.Plus(contact.normal))
  }

  /** A child object (a trail, say) that a hit detaches so that it outlives the projectile. */
  class Attachment {
    var parented: bool

    constructor ()
      ensures parented
    {
      parented := true;
    }
  }

  class Projectile {
    var speed: real
    var lifeTime: Lifetime
    const hitOffset: real
    const hasHitEffect: bool
    const detached: array<Attachment?>
    const hasFlash: bool
    const useFirePointRotation: bool
    const rotationOffset: Vec3
    var position: Vec3
    const rotation: Rotation
    const forward: Vec3
    var velocity: Vec3
    var frozen: bool
    var ignoredColliders: set<nat>
    var destroyAfter: Option<real>
    var state: ProjectileState
    var onHit: Option<HitHandler>
    var effects: seq<Effect>
    var reported: seq<Collider>      // every collider reported to the hit event

    /** At most one hit is ever reported, and a projectile that reported one is destroyed. */
    ghost predicate Valid()
      reads this
    {
      |reported| <= 1 && (|reported| == 1 ==> state == Destroyed)
    }

    /** The attachments a hit detaches: the non-null entries of Detached. */
    function Attachments(): set<object>
      reads detached
    {
      set i | 0 <= i < detached.Length && detached[i] != null :: detached[i] as object
    }

    constructor (prefab: ProjectilePrefab, at: Pose, detached: array<Attachment?>)
      ensures Valid()
      ensures speed == prefab.speed && lifeTime == prefab.lifeTime && hitOffset == prefab.hitOffset
      ensures hasHitEffect == prefab.hasHitEffect && hasFlash == prefab.hasFlash
      ensures useFirePointRotation == prefab.useFirePointRotation && rotationOffset == prefab.rotationOffset
      ensures this.detached == detached
      ensures position == at.position && rotation == at.rotation && forward == at.forward
      ensures velocity == Zero && !frozen && ignoredColliders == {} && destroyAfter == None
      ensures state == Flying && onHit == None && effects == [] && reported == []
    {
      speed, lifeTime, hitOffset := prefab.speed, prefab.lifeTime, prefab.hitOffset;
      hasHitEffect, hasFlash := prefab.hasHitEffect, prefab.hasFlash;
      useFirePointRotation, rotationOffset := prefab.useFirePointRotation, prefab.rotationOffset;
      this.detached := detached;
      position, rotation, forward := at.position, at.rotation, at.forward;
      velocity, frozen, ignoredColliders, destroyAfter := Zero, false, {}, None;
      state, onHit, effects, reported := Flying, None, [], [];
    }

    /** `OnHit += handler`: the event holds the subscribed handler. */
    method Subscribe(handler: HitHandler)
      modifies this`onHit
      ensures onHit == Some(handler)
    {
      onHit := Some(handler);
    }

    /**
     * Fire: ignore collisions with the caster's collider when there is one,
     * adopt the given speed only when it is positive, take the lifetime,
     * spawn the launch flash, and schedule destruction when the lifetime is
     * finite.
     */
    method Fire(caster: Option<Caster>, projectileSpeed: real, projectileLifeTime: Lifetime)
      requires Valid()
      modifies this`ignoredColliders, this`speed, this`lifeTime, this`effects, this`destroyAfter
      ensures Valid()
      ensures ignoredColliders == old(ignoredColliders)
        + (if caster.Some? && caster.value.collider.Some? then {caster.value.collider.value} else {})
      ensures speed == (if projectileSpeed > 0.0 then projectileSpeed else old(speed))
      ensures lifeTime == projectileLifeTime
      ensures effects == old(effects) + (if hasFlash then [Flash(position, forward)] else [])
      ensures destroyAfter == (if projectileLifeTime.Finite? then Some(projectileLifeTime.seconds)
                               else old(destroyAfter))
    {
      if caster.Some? && caster.value.collider.Some? {
        ignoredColliders := ignoredColliders + {caster.value.collider.value};
      }
      speed := if projectileSpeed > 0.0 then projectileSpeed else speed;
      lifeTime := projectileLifeTime;
      SpawnFlashEffect();
      if lifeTime.Finite? {
        destroyAfter := Some(lifeTime.seconds);
      }
    }

    method SpawnFlashEffect()
      modifies this`effects
      ensures effects == old(effects) + (if hasFlash then [Flash(position, forward)] else [])
    {
      if hasFlash {
        effects := effects + [Flash(position, forward)];
      }
    }

    /** FixedUpdate: constant velocity along the forward axis, left alone while the speed is 0. */
    method FixedUpdate()
      modifies this`velocity
      ensures velocity == (if state == Flying && speed != 0.0 then forward.Times(speed) else old(velocity))
    {
      if state == Flying && speed != 0.0 {
        velocity := forward.Times(speed);
      }
    }

    /** What a hit reported by OnCollisionEnter does to the projectile and to the collider's enemy. */
    twostate predicate HitResolved(collision: Collision)
      reads this, detached, Attachments(), if collision.collider.enemy == null then {} else {collision.collider.enemy, collision.collider.enemy.damageNumbersManager}
    {
      && state == Destroyed && frozen && speed == 0.0
      && reported == old(reported) + [collision.collider]
      && effects == old(effects)
         + (if hasHitEffect
            then [HitEffect(collision.contact.point.Plus(collision.contact.normal.Times(hitOffset)),
                            HitEffectRotation(useFirePointRotation, rotationOffset, rotation, collision.contact))]
            else [])
      && (forall i :: 0 <= i < detached.Length && detached[i] != null ==> !detached[i].parented)
      && (onHit.Some? && collision.collider.enemy != null ==>
            collision.collider.enemy.DamageApplied(Damage(onHit.value)))
      && velocity == old(velocity) && ignoredColliders == old(ignoredColliders)
      && onHit == old(onHit) && destroyAfter == old(destroyAfter) && lifeTime == old(lifeTime)
      && position == old(position)
    }

    /**
     * OnCollisionEnter: freeze, spawn the impact effect, detach the trail
     * objects, report the collider to the subscribed handler, destroy.
     */
    method OnCollisionEnter(collision: Collision)
      requires Valid() && TargetValid(collision.collider)
      modifies this, Attachments(), Targets(collision.collider)
      ensures Valid() && TargetValid(collision.collider)
      ensures old(state) == Destroyed || collision.collider.id in old(ignoredColliders) ==>
        unchanged(this) && unchanged(Attachments()) && unchanged(Targets(collision.collider))
      ensures old(state) == Flying && collision.collider.id !in old(ignoredColliders) ==>
        HitResolved(collision) && (onHit.None? ==> unchanged(Targets(collision.collider)))
    {
      if state == Destroyed || collision.collider.id in ignoredColliders {
        return;
      }
      ResolveHit(collision);
    }

    method ResolveHit(collision: Collision)
      requires Valid() && TargetValid(collision.collider) && state == Flying
      modifies this, Attachments(), Targets(collision.collider)
      ensures Valid() && TargetValid(collision.collider)
      ensures HitResolved(collision) && (onHit.None? ==> unchanged(Targets(collision.collider)))
    {
      StopAndDetach(collision);
      assert unchanged(Targets(collision.collider));
      if onHit.Some? {
        Invoke(onHit.value, collision.collider);
      }
      state := Destroyed;
    }

    /** The part of a hit local to the projectile: freeze, impact effect, detach, report. */
    method StopAndDetach(collision: Collision)
      modifies this`frozen, this`speed, this`effects, this`reported, Attachments()
      ensures frozen && speed == 0.0 && reported == old(reported) + [collision.collider]
      ensures effects == old(effects)
        + (if hasHitEffect
           then [HitEffect(collision.contact.point.Plus(collision.contact.normal.Times(hitOffset)),
                           HitEffectRotation(useFirePointRotation, rotationOffset, rotation, collision.contact))]
           else [])
      ensures forall i :: 0 <= i < detached.Length && detached[i] != null ==> !detached[i].parented
    {
      frozen := true;
      speed := 0.0;
      SpawnHitEffect(collision.contact);
      DetachObjects();
      reported := reported + [collision.collider];
    }

    method SpawnHitEffect(contact: Contact)
      modifies this`effects
      ensures effects == old(effects)
        + (if hasHitEffect
           then [HitEffect(contact.point.Plus(contact.normal.Times(hitOffset)),
                           HitEffectRotation(useFirePointRotation, rotationOffset, rotation, contact))]
           else [])
    {
      if hasHitEffect {
        var rot := HitEffectRotation(useFirePointRotation, rotationOffset, rotation, contact);
        effects := effects + [HitEffect(contact.point.Plus(contact.normal.Times(hitOffset)), rot)];
      }
    }

    /** DetachObjects: unparent every non-null entry of Detached, skipping the nulls. */
    method DetachObjects()
      modifies Attachments()
      ensures forall i :: 0 <= i < detached.Length && detached[i] != null ==> !detached[i].parented
    {
      for i := 0 to detached.Length
        invariant forall j :: 0 <= j < i && detached[j] != null ==> !detached[j].parented
      {
        if detached[i] != null {
          detached[i].parented := false;
        }
      }
    }

    /** The timer scheduled by Fire runs out: the projectile is destroyed without reporting a hit. */
    method LifetimeElapsed()
      requires Valid()
      modifies this`state
      ensures Valid()
      ensures state == (if destroyAfter.Some? then Destroyed else old(state))
    {
      if destroyAfter.Some? {
        state := Destroyed;
      }
    }
  }

  /** Instantiate: a fresh projectile built from the prefab at the given pose, with fresh attachments. */
  method Instantiate(prefab: ProjectilePrefab, at: Pose) returns (p: Projectile)
    ensures fresh(p) && fresh(p.detached) && p.Valid()
    ensures p.speed == prefab.speed && p.lifeTime == prefab.lifeTime && p.hitOffset == prefab.hitOffset
    ensures p.hasHitEffect == prefab.hasHitEffect && p.hasFlash == prefab.hasFlash
    ensures p.useFirePointRotation == prefab.useFirePointRotation && p.rotationOffset == prefab.rotationOffset
    ensures p.position == at.position && p.rotation == at.rotation && p.forward == at.forward
    ensures p.velocity == Zero && !p.frozen && p.ignoredColliders == {} && p.destroyAfter == None
    ensures p.state == Flying && p.onHit == None && p.effects == [] && p.reported == []
    ensures p.detached.Length == |prefab.detached|
    ensures forall i :: 0 <= i < |prefab.detached| ==> (p.detached[i] != null <==> prefab.detached[i])
    ensures forall a :: a in p.Attachments() ==> fresh(a)
  {
    var arr := new Attachment?[|prefab.detached|];
    for i := 0 to |prefab.detached|
      invariant forall j :: 0 <= j < i ==> (arr[j] != null <==> prefab.detached[j])
      invariant forall j :: 0 <= j < i && arr[j] != null ==> fresh(arr[j])
    {
      if prefab.detached[i] {
        arr[i] := new Attachment();
      } else {
        arr[i] := null;
      }
    }
    p := new Projectile(prefab, at, arr);
  }
}
