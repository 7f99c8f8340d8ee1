/**
 * The ice-spike entity (IceSpike): a crystal buried below its spawn point
 * that rises, holds, sinks and is destroyed, each phase lasting 0.2 s, and
 * that reports the first collider entering its trigger, then is destroyed.
 *
 * The tween's easing is not modelled: a phase ends with the spike at the
 * phase's target height, and `CompletePhase` is the tween timer reporting
 * that the current phase has run its duration.
 */
module IceSpikes {
  import opened Scene
  import opened Enemies
  import opened Hits
  import opened IceCrystals

  /** Buried: the spike exists below the ground but AnimateSpike has not started its sequence yet. */
  datatype Phase = Buried | Rising | Holding | Sinking | Destroyed

  const RiseDuration: real := 0.2
  const SinkDelay: real := 0.2
  const SinkDuration: real := 0.2

  /** The phase the tween sequence moves to when the current one has run its duration. */
  function NextPhase(p: Phase): Phase
  {
    match p
    case Buried => Buried
    case Rising => Holding
    case Holding => Sinking
    case Sinking => Destroyed
    case Destroyed => Destroyed
  }

  /** How long each phase of the sequence lasts. */
  function PhaseDuration(p: Phase): real
  {
    match p
    case Rising => RiseDuration
    case Holding => SinkDelay
    case Sinking => SinkDuration
    case _ => 0.0
  }

  /**
   * The sequence is fixed: rise, hold, sink, destroy, in 0.6 s in all; it
   * visits each phase once and Destroyed is final.
   */
  lemma AnimationSequence()
    ensures NextPhase(Rising) == Holding && NextPhase(Holding) == Sinking && NextPhase(Sinking) == Destroyed
    ensures NextPhase(Destroyed) == Destroyed
    ensures PhaseDuration(Rising) + PhaseDuration(Holding) + PhaseDuration(Sinking) == 0.6
  {
  }

  /** Completing `k` phases from Rising: Destroyed is reached after exactly three and never left. */
  function PhasesAfter(p: Phase, k: nat): Phase
    decreases k
  {
    if k == 0 then p else PhasesAfter(NextPhase(p), k - 1)
  }

  lemma {:induction false} DestroyedIsFinal(k: nat)
    ensures PhasesAfter(Destroyed, k) == Destroyed
  {
    if k > 0 {
      DestroyedIsFinal(k - 1);
    }
  }

  lemma RisingEndsDestroyed(k: nat)
    ensures PhasesAfter(Rising, k) == Destroyed <==> k >= 3
  {
    if k >= 3 {
      assert PhasesAfter(Rising, k) == PhasesAfter(Holding, k - 1);
      assert PhasesAfter(Holding, k - 1) == PhasesAfter(Sinking, k - 2);
      assert PhasesAfter(Sinking, k - 2) == PhasesAfter(Destroyed, k - 3);
      DestroyedIsFinal(k - 3);
    } else {
      assert k == 0 || k == 1 || k == 2;
    }
  }

  class IceSpike {
    const body: Crystal
    var sizeMultiplier: real
    var startPosition: Vec3
    var riseTargetY: real           // the heights the tween sequence was built with
    var sinkTargetY: real
    var phase: Phase
    var onSpikeHit: Option<HitHandler>
    var reported: seq<Collider>     // every collider reported to the hit event

    /** At most one hit is ever reported, and a spike that reported one is destroyed. */
    ghost predicate Valid()
      reads this
    {
      |reported| <= 1 && (|reported| == 1 ==> phase == Destroyed)
    }

    /** AddComponent on the crystal: the spike script before Initialize. */
    constructor (body: Crystal)
      ensures Valid()
      ensures this.body == body && sizeMultiplier == 0.0 && startPosition == Zero
      ensures riseTargetY == 0.0 && sinkTargetY == 0.0
      ensures phase == Buried && onSpikeHit == None && reported == []
    {
      this.body := body;
      sizeMultiplier, startPosition := 0.0, Zero;
      riseTargetY, sinkTargetY := 0.0, 0.0;
      phase, onSpikeHit, reported := Buried, None, [];
    }

    /**
     * Initialize: scale the crystal uniformly by `size`, bury it by lowering
     * it `size`, and aim the rise at 0.9 * size above the buried position.
     */
    method Initialize(size: real)
      modifies this`sizeMultiplier, this`startPosition, body`scale, body`position
      ensures sizeMultiplier == size && body.scale == size
      ensures body.position == Vec3(old(body.position).x, old(body.position).y - size, old(body.position).z)
      ensures startPosition == Vec3(old(body.position).x, old(body.position).y - 0.1 * size, old(body.position).z)
    {
      sizeMultiplier := size;
      body.scale := size;
      body.position := Vec3(body.position.x, body.position.y - sizeMultiplier, body.position.z);
      startPosition := body.position.Plus(Vec3(0.0, sizeMultiplier * 0.9, 0.0));
    }

    /** AnimateSpike: build the rise-hold-sink sequence towards the heights known now, and start it. */
    method AnimateSpike()
      modifies this`phase, this`riseTargetY, this`sinkTargetY
      ensures riseTargetY == startPosition.y && sinkTargetY == startPosition.y - sizeMultiplier
      ensures phase == Rising
    {
      riseTargetY := startPosition.y;
      sinkTargetY := startPosition.y - sizeMultiplier;
      phase := Rising;
    }

    /** `OnSpikeHit += handler`: the event holds the subscribed handler. */
    method Subscribe(handler: HitHandler)
      modifies this`onSpikeHit
      ensures onSpikeHit == Some(handler)
    {
      onSpikeHit := Some(handler);
    }

    /**
     * The tween timer: the current phase has run its duration. The rise ends
     * at the rise target, the sink at the sink target, and the sequence's
     * completion callback destroys the spike.
     */
    method CompletePhase()
      requires Valid()
      modifies this`phase, body`position
      ensures Valid()
      ensures phase == NextPhase(old(phase))
      ensures body.position == (match old(phase)
        case Rising => old(body.position).(y := riseTargetY)
        case Sinking => old(body.position).(y := sinkTargetY)
        case _ => old(body.position))
    {
      match phase
      case Rising =>
        body.position := body.position.(y := riseTargetY);
        phase := Holding;
      case Holding =>
        phase := Sinking;
      case Sinking =>
        body.position := body.position.(y := sinkTargetY);
        phase := Destroyed;
      case _ =>
    }

    /** What a trigger entry does to the spike and to the collider's enemy. */
    twostate predicate HitResolved(other: Collider)
      reads this, if other.enemy == null then {} else {other.enemy, other.enemy.damageNumbersManager}
    {
      && phase == Destroyed
      && reported == old(reported) + [other]
      && onSpikeHit == old(onSpikeHit)
      && (onSpikeHit.Some? && other.enemy != null ==> other.enemy.DamageApplied(Damage(onSpikeHit.value)))
    }

    /**
     * OnTriggerEnter: report the collider to the subscribed handler, then
     * destroy the spike. There is no caster exclusion. A destroyed spike
     * receives no more trigger entries.
     */
    method OnTriggerEnter(other: Collider)
      requires Valid() && TargetValid(other)
      modifies this`phase, this`reported, Targets(other)
      ensures Valid() && TargetValid(other)
      ensures old(phase) == Destroyed ==> unchanged(this) && unchanged(Targets(other))
      ensures old(phase) != Destroyed ==>
        HitResolved(other) && (onSpikeHit.None? ==> unchanged(Targets(other)))
    {
      if phase == Destroyed {
        return;
      }
      reported := reported + [other];
      assert unchanged(Targets(other));
      if onSpikeHit.Some? {
        Invoke(onSpikeHit.value, other);
      }
      phase := Destroyed;
    }
  }
}
